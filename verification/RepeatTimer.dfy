/** The client: a timer that re-arms itself until a stop flag is raised, and the work it does.
    `ClientState` is its value; the classes are proved to step it. */
module RepeatTimer {
  import opened ServerProtocol
  import opened Strings

  /** How the work of one firing ends: with a reply, or by an exception from the connection. */
  datatype Outcome = Replied(reply: Reply) | Threw

  /** The timer's expiry, whether it is waiting for it, the stop flag, the times for which the
      firings so far were scheduled, the times at which their works started and ended, and the
      lines sent. */
  datatype ClientState = ClientState(
    expiry: nat, waiting: bool, stop: bool, firings: seq<nat>, starts: seq<nat>, ends: seq<nat>, requests: seq<string>)

  /** A firing's work takes some time, which may be longer than the interval. */
  datatype ClientEvent =
    | Fires(line: string, outcome: Outcome, quitMeanwhile: bool, duration: nat)
    | UserQuits

  function Started(now: nat, interval: nat): ClientState {
    ClientState(now + interval, true, false, [], [], [], [])
  }

  predicate CanHappen(c: ClientState, e: ClientEvent) {
    e.Fires? ==> c.waiting
  }

  function Last(times: seq<nat>): nat {
    if times == [] then 0 else times[|times| - 1]
  }

  /** After the work, the flag decides; an exception leaves the timer unarmed. */
  function Finish(c: ClientState, interval: nat, outcome: Outcome, duration: nat): ClientState {
    var stop := c.stop || outcome == Replied(NotAuthorized);
    var d := c.(stop := stop, ends := c.ends + [Last(c.starts) + duration]);
    if outcome.Threw? || stop then d.(waiting := false) else d.(expiry := c.expiry + interval, waiting := true)
  }

  /** The work starts at the expiry, or as soon as the work before it has ended. */
  function Begin(c: ClientState, line: string): ClientState {
    c.(waiting := false, firings := c.firings + [c.expiry], starts := c.starts + [Max(c.expiry, Last(c.ends))],
       requests := c.requests + [line])
  }

  function ClientStep(c: ClientState, interval: nat, e: ClientEvent): ClientState
    requires CanHappen(c, e)
  {
    match e
    case UserQuits => c.(stop := true)
    case Fires(line, outcome, quitMeanwhile, duration) =>
      var b := Begin(c, line);
      Finish(b.(stop := b.stop || quitMeanwhile), interval, outcome, duration)
  }

  ghost predicate ClientFeasible(c: ClientState, interval: nat, events: seq<ClientEvent>)
    decreases |events|
  {
    events != [] ==> CanHappen(c, events[0]) && ClientFeasible(ClientStep(c, interval, events[0]), interval, events[1..])
  }

  ghost function ClientRun(c: ClientState, interval: nat, events: seq<ClientEvent>): ClientState
    requires ClientFeasible(c, interval, events)
    decreases |events|
  {
    if events == [] then c else ClientRun(ClientStep(c, interval, events[0]), interval, events[1..])
  }

  /** The k-th firing is scheduled k intervals after the start, and so is the one being waited
      for; one line is sent per firing. */
  ghost predicate OnSchedule(c: ClientState, now: nat, interval: nat) {
    && |c.firings| == |c.requests|
    && (forall k :: 0 <= k < |c.firings| ==> c.firings[k] == now + (k + 1) * interval)
    && c.expiry == now + (|c.firings| + (if c.waiting then 1 else 0)) * interval
    && (c.waiting || |c.firings| > 0)
  }

  lemma {:induction false} AlwaysOnSchedule(c: ClientState, now: nat, interval: nat, events: seq<ClientEvent>)
    requires OnSchedule(c, now, interval) && ClientFeasible(c, interval, events)
    ensures OnSchedule(ClientRun(c, interval, events), now, interval)
    decreases |events|
  {
    if events == [] {
    } else {
      var e := events[0];
      if e.Fires? {
        var n := |c.firings|;
        assert (n + 1) * interval + interval == (n + 2) * interval;
      }
      AlwaysOnSchedule(ClientStep(c, interval, e), now, interval, events[1..]);
    }
  }

  /** Every work starts at its firing's time, or late by what the work before it has overrun. */
  ghost predicate InTurn(c: ClientState) {
    && |c.starts| == |c.ends| == |c.firings|
    && forall k :: 0 <= k < |c.starts| ==> c.starts[k] == Max(c.firings[k], Last(c.ends[..k])) && c.starts[k] <= c.ends[k]
  }

  lemma StepsInTurn(c: ClientState, interval: nat, e: ClientEvent)
    requires InTurn(c) && CanHappen(c, e)
    ensures InTurn(ClientStep(c, interval, e))
  {
    if e.Fires? {
      var d := ClientStep(c, interval, e);
      var n := |c.starts|;
      assert d.ends[..n] == c.ends && d.starts[..n] == c.starts && d.firings[..n] == c.firings;
      forall k | 0 <= k < |d.starts|
        ensures d.starts[k] == Max(d.firings[k], Last(d.ends[..k])) && d.starts[k] <= d.ends[k]
      {
        if k < n {
          assert d.ends[..k] == c.ends[..k];
        }
      }
    }
  }

  lemma {:induction false} AlwaysInTurn(c: ClientState, interval: nat, events: seq<ClientEvent>)
    requires InTurn(c) && ClientFeasible(c, interval, events)
    ensures InTurn(ClientRun(c, interval, events))
    decreases |events|
  {
    if events == [] {
    } else {
      StepsInTurn(c, interval, events[0]);
      AlwaysInTurn(ClientStep(c, interval, events[0]), interval, events[1..]);
    }
  }

  /** Whatever its works take and reply, the client's k-th firing is scheduled k intervals after
      its start: no overrun shifts the schedule. Its work starts no earlier, and on time exactly
      if the work before it has ended by then. */
  lemma FiringsAreScheduled(now: nat, interval: nat, events: seq<ClientEvent>)
    requires ClientFeasible(Started(now, interval), interval, events)
    ensures var c := ClientRun(Started(now, interval), interval, events);
            && InTurn(c) && OnSchedule(c, now, interval)
            && forall k :: 0 <= k < |c.firings| ==>
                 && c.firings[k] == now + (k + 1) * interval
                 && c.firings[k] <= c.starts[k]
                 && (c.starts[k] == c.firings[k] <==> k == 0 || c.ends[k - 1] <= c.firings[k])
  {
    AlwaysOnSchedule(Started(now, interval), now, interval, events);
    AlwaysInTurn(Started(now, interval), interval, events);
    hide ClientRun, ClientFeasible;
  }

  /** The time by which a work starts late. */
  function Lag(c: ClientState, k: nat): int
    requires k < |c.firings| == |c.starts|
  {
    c.starts[k] as int - c.firings[k] as int
  }

  lemma NextFiring(c: ClientState, now: nat, interval: nat, k: nat)
    requires OnSchedule(c, now, interval) && k + 1 < |c.firings|
    ensures c.firings[k + 1] == c.firings[k] + interval
  {
    assert (k + 2) * interval == (k + 1) * interval + interval;
  }

  /** A work is as late as the one before it, plus its duration, less the interval. */
  lemma NextLag(c: ClientState, now: nat, interval: nat, k: nat)
    requires OnSchedule(c, now, interval) && InTurn(c) && k + 1 < |c.firings|
    ensures var lag := Lag(c, k) + c.ends[k] as int - c.starts[k] as int - interval;
            Lag(c, k + 1) == if lag < 0 then 0 else lag
  {
    NextFiring(c, now, interval, k);
    hide OnSchedule;
    assert Last(c.ends[..k + 1]) == c.ends[k];
  }

  /** What n works save that each leave some of the interval over. */
  function Saved(n: nat, slack: nat): nat { n * slack }

  lemma OneMoreSaves(n: nat, slack: nat)
    ensures Saved(n + 1, slack) == Saved(n, slack) + slack
    ensures Saved(0, slack) == 0
  {
  }

  /** The n works from the i-th on leave that much of the interval over. */
  ghost predicate LeavesOver(c: ClientState, interval: nat, slack: nat, i: nat, n: nat) {
    && i + n <= |c.starts| == |c.ends|
    && forall k :: i <= k < i + n ==> c.starts[k] <= c.ends[k] && c.ends[k] - c.starts[k] + slack <= interval
  }

  lemma LastLeavesOver(c: ClientState, interval: nat, slack: nat, i: nat, n: nat)
    requires LeavesOver(c, interval, slack, i, n + 1)
    ensures LeavesOver(c, interval, slack, i, n)
    ensures i + n < |c.starts| == |c.ends| && c.ends[i + n] as int - c.starts[i + n] as int + slack <= interval
  {
  }

  /** By that much a lag shrinks with each of them. */
  lemma {:induction false} LagShrinks(c: ClientState, now: nat, interval: nat, slack: nat, i: nat, n: nat)
    requires OnSchedule(c, now, interval) && InTurn(c) && |c.starts| == |c.firings| && i + n < |c.firings|
    requires LeavesOver(c, interval, slack, i, n)
    ensures Lag(c, i + n) == 0 || Lag(c, i + n) <= Lag(c, i) - Saved(n, slack)
    decreases n
  {
    hide OnSchedule, InTurn, Lag, Saved, LeavesOver;
    if n == 0 {
      OneMoreSaves(0, slack);
    } else {
      LastLeavesOver(c, interval, slack, i, n - 1);
      NextLag(c, now, interval, i + n - 1);
      LagShrinks(c, now, interval, slack, i, n - 1);
      OneMoreSaves(n - 1, slack);
    }
  }

  /** After an overrun the client catches up: once the time left over makes up for the lag, works
      start on time again. */
  lemma CatchesUp(now: nat, interval: nat, events: seq<ClientEvent>, slack: nat, i: nat, n: nat)
    requires ClientFeasible(Started(now, interval), interval, events)
    requires var c := ClientRun(Started(now, interval), interval, events);
             && i + n < |c.firings| == |c.starts| && LeavesOver(c, interval, slack, i, n)
             && Lag(c, i) <= Saved(n, slack)
    ensures var c := ClientRun(Started(now, interval), interval, events);
            c.starts[i + n] == c.firings[i + n] == now + (i + n + 1) * interval
  {
    var c := ClientRun(Started(now, interval), interval, events);
    FiringsAreScheduled(now, interval, events);
    hide ClientRun, ClientFeasible, Saved, LeavesOver;
    LagShrinks(c, now, interval, slack, i, n);
  }

  /** Once the flag is up, at most the work already waited for still starts; none does once a
      firing has seen it. */
  lemma {:induction false} StopIsFinal(c: ClientState, interval: nat, events: seq<ClientEvent>)
    requires c.stop && ClientFeasible(c, interval, events)
    ensures var d := ClientRun(c, interval, events);
            && d.stop && (!c.waiting ==> d.requests == c.requests && !d.waiting)
            && |d.requests| <= |c.requests| + 1
    decreases |events|
  {
    if events == [] {
    } else {
      StopIsFinal(ClientStep(c, interval, events[0]), interval, events[1..]);
    }
  }

  /** A firing that ends with "2", or with the flag up, is the last one. */
  lemma RefusedFiringIsLast(c: ClientState, interval: nat, events: seq<ClientEvent>)
    requires ClientFeasible(c, interval, events) && events != [] && events[0].Fires?
    requires events[0].outcome == Replied(NotAuthorized) || events[0].quitMeanwhile || c.stop
    ensures ClientRun(c, interval, events).requests == c.requests + [events[0].line]
  {
    StopIsFinal(ClientStep(c, interval, events[0]), interval, events[1..]);
  }

  /** So is one whose work ends with an exception. */
  lemma ThrowingFiringIsLast(c: ClientState, interval: nat, events: seq<ClientEvent>)
    requires ClientFeasible(c, interval, events) && events != [] && events[0].Fires? && events[0].outcome.Threw?
    ensures ClientRun(c, interval, events).requests == c.requests + [events[0].line]
  {
    UnarmedForGood(ClientStep(c, interval, events[0]), interval, events[1..]);
  }

  lemma {:induction false} UnarmedForGood(c: ClientState, interval: nat, events: seq<ClientEvent>)
    requires !c.waiting && ClientFeasible(c, interval, events)
    ensures ClientRun(c, interval, events).requests == c.requests && !ClientRun(c, interval, events).waiting
    decreases |events|
  {
    if events == [] {
    } else {
      UnarmedForGood(ClientStep(c, interval, events[0]), interval, events[1..]);
    }
  }

  // ----- the timer and its work -----

  class StopFlag {
    var raised: bool

    constructor ()
      ensures !raised
    {
      raised := false;
    }
  }

  /** The closure given to the timer: one request per call. */
  class Task {
    const stop: StopFlag
    var requests: seq<string>

    constructor (stop: StopFlag)
      ensures this.stop == stop && requests == []
    {
      this.stop, requests := stop, [];
    }

    /** Sends the line and acts on the reply; the result is false if the connection throws. */
    method Call(line: string, outcome: Outcome) returns (returned: bool)
      modifies this, stop
      ensures requests == old(requests) + [line]
      ensures stop.raised == (old(stop.raised) || outcome == Replied(NotAuthorized))
      ensures returned == outcome.Replied?
    {
      requests := requests + [line];
      if outcome.Threw? {
        return false;
      }
      if outcome.reply == ReadFailure {
        return true;
      } else if outcome.reply == NotAuthorized {
        stop.raised := true;
        return true;
      }
      return true;
    }
  }

  class Timer {
    const interval: nat
    const stop: StopFlag
    const repeatWork: Task
    var expiry: nat
    var waiting: bool

    /** When the firings were due, and when their works started and ended. */
    ghost var firings: seq<nat>
    ghost var starts: seq<nat>
    ghost var ends: seq<nat>

    ghost function State(): ClientState
      reads this, stop, repeatWork
    {
      ClientState(expiry, waiting, stop.raised, firings, starts, ends, repeatWork.requests)
    }

    constructor (interval: nat, now: nat, repeatWork: Task)
      ensures this.interval == interval && stop == repeatWork.stop && this.repeatWork == repeatWork
      ensures State() == ClientState(now + interval, false, repeatWork.stop.raised, [], [], [], repeatWork.requests)
    {
      this.interval, stop, this.repeatWork := interval, repeatWork.stop, repeatWork;
      expiry, waiting := now + interval, false;
      firings, starts, ends := [], [], [];
    }

    method StartTimer()
      modifies this
      ensures State() == old(State()).(waiting := true)
    {
      waiting := true;
    }

    /** The handler of the wait. The user may raise the flag while the work is being done. */
    method Work(line: string, outcome: Outcome, quitMeanwhile: bool, ghost duration: nat)
      requires waiting && stop == repeatWork.stop
      modifies this, stop, repeatWork
      ensures State() == ClientStep(old(State()), interval, Fires(line, outcome, quitMeanwhile, duration))
    {
      waiting := false;
      firings, starts := firings + [expiry], starts + [Max(expiry, Last(ends))];
      if quitMeanwhile {
        stop.raised := true;
      }
      var returned := repeatWork.Call(line, outcome);
      ends := ends + [Last(starts) + duration];
      if returned && !stop.raised {
        expiry := expiry + interval;
        waiting := true;
      }
    }
  }
}
