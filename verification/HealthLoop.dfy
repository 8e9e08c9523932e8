/**
 The healthcheck loop (crates/micromux/src/health_check.rs) and the latency that
 crates/micromux/src/spec.rs documents for it.

 Probes, the event channel and cancellation are inputs: a run is a list of rounds, each with what
 its probe answered, how long it took, whether the channel took the event and whether the pause
 afterwards was cut short.
 */
module HealthLoop {
  import opened Prelude

  datatype Answer = Passed | Failed | Cancelled
  datatype Round = Round(answer: Answer, duration: nat, accepted: bool, interrupted: bool)
  datatype Signal = Healthy | Unhealthy
  datatype Event = Event(signal: Signal, round: nat, at: nat)
  datatype Spec = Spec(startDelay: nat, interval: nat, retries: nat)

  /** How many failures in a row make a service unhealthy. */
  function Threshold(retries: nat): nat {
    Max(1, retries)
  }

  // ---------------------------------------------------------------- what a history calls for

  /** How many failures in a row end the first `n` rounds. */
  function FailuresAt(rounds: seq<Round>, n: nat): (k: nat)
    requires n <= |rounds|
    ensures k <= n
  {
    if n == 0 || !rounds[n - 1].answer.Failed? then 0 else FailuresAt(rounds, n - 1) + 1
  }

  /** At least the threshold of consecutive failures ends the first `n` rounds. */
  predicate IsUnhealthy(spec: Spec, rounds: seq<Round>, n: nat)
    requires n <= |rounds|
  {
    FailuresAt(rounds, n) >= Threshold(spec.retries)
  }

  /** Every pass is announced, and a failure exactly when it turns the service unhealthy. */
  function SignalOf(spec: Spec, rounds: seq<Round>, i: nat): Option<Signal>
    requires i < |rounds|
  {
    if rounds[i].answer.Passed? then Some(Healthy)
    else if IsUnhealthy(spec, rounds, i + 1) && !IsUnhealthy(spec, rounds, i) then Some(Unhealthy)
    else None
  }

  /** When round `i` begins, if nothing stops the loop before. */
  function StartOf(spec: Spec, rounds: seq<Round>, i: nat): nat
    requires i <= |rounds|
  {
    if i == 0 then spec.startDelay else StartOf(spec, rounds, i - 1) + rounds[i - 1].duration + spec.interval
  }

  function EventsOf(spec: Spec, rounds: seq<Round>, n: nat): seq<Event>
    requires n <= |rounds|
  {
    if n == 0 then []
    else
      var signal := SignalOf(spec, rounds, n - 1);
      EventsOf(spec, rounds, n - 1)
      + if signal.None? then [] else [Event(signal.value, n - 1, StartOf(spec, rounds, n - 1) + rounds[n - 1].duration)]
  }

  /** Round `i` gets its event out, or has none. */
  predicate Delivers(spec: Spec, rounds: seq<Round>, i: nat)
    requires i < |rounds|
  {
    !rounds[i].answer.Cancelled? && (SignalOf(spec, rounds, i).Some? ==> rounds[i].accepted)
  }

  predicate GoesOn(spec: Spec, rounds: seq<Round>, i: nat)
    requires i < |rounds|
  {
    Delivers(spec, rounds, i) && !rounds[i].interrupted
  }

  /** How many rounds the loop delivers before it ends. */
  function DeliveredFrom(spec: Spec, rounds: seq<Round>, i: nat): (n: nat)
    requires i <= |rounds|
    ensures i <= n <= |rounds|
    decreases |rounds| - i
  {
    if i == |rounds| then i
    else if GoesOn(spec, rounds, i) then DeliveredFrom(spec, rounds, i + 1)
    else if Delivers(spec, rounds, i) then i + 1
    else i
  }

  // ---------------------------------------------------------------- the code

  class Loop {
    const spec: Spec
    var attempt: nat
    var unhealthy: bool
    var events: seq<Event>
    var now: nat

    constructor (spec: Spec)
      ensures this.spec == spec && attempt == 0 && !unhealthy && events == [] && now == 0
    {
      this.spec := spec;
      attempt, unhealthy, events, now := 0, false, [], 0;
    }

    /** The fields after `n` rounds. The counter stops once it has reached the threshold. */
    ghost predicate Reflects(rounds: seq<Round>, n: nat)
      requires n <= |rounds|
      reads this
    {
      && attempt == Min(FailuresAt(rounds, n), Threshold(spec.retries))
      && unhealthy == IsUnhealthy(spec, rounds, n)
    }

    /** The channel would not take the news that round `n` turned the service unhealthy. */
    ghost predicate RefusedUnhealthy(rounds: seq<Round>, n: nat)
      reads this
    {
      && n < |rounds| && SignalOf(spec, rounds, n) == Some(Unhealthy) && !rounds[n].accepted
      && Reflects(rounds, n + 1)
    }

    /** `send_event`. */
    method SendEvent(signal: Signal, round: nat, accepted: bool) returns (sent: bool)
      modifies this`events
      ensures sent == accepted
      ensures events == old(events) + if sent then [Event(signal, round, now)] else []
    {
      sent := accepted;
      if sent {
        events := events + [Event(signal, round, now)];
      }
    }

    /** `record_probe_failure`. */
    method RecordProbeFailure(ghost rounds: seq<Round>, round: nat, accepted: bool) returns (goOn: bool)
      requires round < |rounds| && rounds[round].answer.Failed? && rounds[round].accepted == accepted
      requires Reflects(rounds, round)
      modifies this`attempt, this`unhealthy, this`events
      ensures Reflects(rounds, round + 1)
      ensures goOn == Delivers(spec, rounds, round)
      ensures SignalOf(spec, rounds, round).Some? && goOn ==> events == old(events) + [Event(Unhealthy, round, now)]
      ensures SignalOf(spec, rounds, round).None? || !goOn ==> events == old(events)
    {
      if unhealthy {
        return true;
      }
      attempt := attempt + 1;
      if attempt >= spec.retries {
        unhealthy := true;
        goOn := SendEvent(Unhealthy, round, accepted);
        return;
      }
      return true;
    }

    /** `run_loop`. It ends at a cancelled probe, a refused event or an interrupted pause. */
    method Run(delayInterrupted: bool, rounds: seq<Round>) returns (delivered: nat)
      requires attempt == 0 && !unhealthy && events == [] && now == 0
      modifies this
      ensures delivered == if delayInterrupted && spec.startDelay > 0 then 0 else DeliveredFrom(spec, rounds, 0)
      ensures events == EventsOf(spec, rounds, delivered)
      ensures Reflects(rounds, delivered) || RefusedUnhealthy(rounds, delivered)
    {
      if spec.startDelay > 0 {
        if delayInterrupted {
          return 0;
        }
        now := now + spec.startDelay;
      }
      delivered := 0;
      while delivered < |rounds|
        invariant delivered <= |rounds| && Reflects(rounds, delivered)
        invariant DeliveredFrom(spec, rounds, 0) == DeliveredFrom(spec, rounds, delivered)
        invariant events == EventsOf(spec, rounds, delivered) && now == StartOf(spec, rounds, delivered)
      {
        FailuresNext(rounds, delivered);
        hide FailuresAt;
        var round := rounds[delivered];
        now := now + round.duration;
        match round.answer {
          case Cancelled =>
            return;
          case Passed =>
            var sent := SendEvent(Healthy, delivered, round.accepted);
            if !sent {
              return;
            }
            attempt, unhealthy := 0, false;
          case Failed =>
            var goOn := RecordProbeFailure(rounds, delivered, round.accepted);
            if !goOn {
              return;
            }
        }
        delivered := delivered + 1;
        if round.interrupted {
          return;
        }
        now := now + spec.interval;
      }
    }
  }

  // ---------------------------------------------------------------- alternation

  lemma {:induction false} FailuresAreFailed(rounds: seq<Round>, n: nat)
    requires n <= |rounds|
    ensures forall i :: n - FailuresAt(rounds, n) <= i < n ==> rounds[i].answer.Failed?
    ensures FailuresAt(rounds, n) < n ==> !rounds[n - 1 - FailuresAt(rounds, n)].answer.Failed?
  {
    if n > 0 && rounds[n - 1].answer.Failed? {
      FailuresAreFailed(rounds, n - 1);
    }
  }

  /** The flag means what it says: the last `Threshold` rounds, at least, all failed. */
  lemma UnhealthyMeans(spec: Spec, rounds: seq<Round>, n: nat)
    requires n <= |rounds|
    ensures IsUnhealthy(spec, rounds, n)
       <==> n >= Max(1, spec.retries)
            && forall i :: n - Max(1, spec.retries) <= i < n ==> rounds[i].answer.Failed?
  {
    FailuresAreFailed(rounds, n);
    hide FailuresAt;
    var k := n - 1 - FailuresAt(rounds, n);
    assert k >= 0 ==> !rounds[k].answer.Failed?;
  }

  /** Exactly the rounds that have a signal have an event, in order and at the end of the probe. */
  lemma {:induction false} EventsAre(spec: Spec, rounds: seq<Round>, n: nat, e: Event)
    requires n <= |rounds|
    ensures e in EventsOf(spec, rounds, n)
       <==> e.round < n && SignalOf(spec, rounds, e.round) == Some(e.signal)
            && e.at == StartOf(spec, rounds, e.round) + rounds[e.round].duration
  {
    if n > 0 {
      EventsAre(spec, rounds, n - 1, e);
    }
    hide SignalOf, StartOf;
  }

  lemma {:induction false} StaysUnhealthy(spec: Spec, rounds: seq<Round>, i: nat, j: nat)
    requires i <= j <= |rounds| && IsUnhealthy(spec, rounds, i)
    requires forall k :: i <= k < j ==> rounds[k].answer.Failed?
    ensures IsUnhealthy(spec, rounds, j)
    decreases j
  {
    if i < j {
      StaysUnhealthy(spec, rounds, i, j - 1);
    }
  }

  /** Between two announcements that the service is unhealthy lies one that it is healthy. */
  lemma HealthyBetween(spec: Spec, rounds: seq<Round>, n: nat, i: nat, j: nat)
    requires i < j < n <= |rounds| && forall k :: 0 <= k < n ==> !rounds[k].answer.Cancelled?
    requires SignalOf(spec, rounds, i) == SignalOf(spec, rounds, j) == Some(Unhealthy)
    ensures exists e :: e in EventsOf(spec, rounds, n) && e.signal == Healthy && i < e.round < j
  {
    if forall k :: i + 1 <= k < j ==> rounds[k].answer.Failed? {
      StaysUnhealthy(spec, rounds, i + 1, j);
      assert false;
    }
    var k :| i + 1 <= k < j && rounds[k].answer.Passed?;
    var e := Event(Healthy, k, StartOf(spec, rounds, k) + rounds[k].duration);
    EventsAre(spec, rounds, n, e);
  }

  // ---------------------------------------------------------------- latency

  function TimeSpent(rounds: seq<Round>, i: nat, j: nat): nat
    requires i <= j <= |rounds|
  {
    if i == j then 0 else TimeSpent(rounds, i, j - 1) + rounds[j - 1].duration
  }

  lemma {:induction false} StartsApart(spec: Spec, rounds: seq<Round>, i: nat, j: nat)
    requires i <= j <= |rounds|
    ensures StartOf(spec, rounds, j) == StartOf(spec, rounds, i) + TimeSpent(rounds, i, j) + (j - i) * spec.interval
    decreases j
  {
    if i < j {
      StartsApart(spec, rounds, i, j - 1);
      assert (j - i) * spec.interval == (j - 1 - i) * spec.interval + spec.interval;
    }
  }

  lemma {:induction false} TimeSpentAtMost(rounds: seq<Round>, i: nat, j: nat, most: nat)
    requires i <= j <= |rounds| && forall k :: i <= k < j ==> rounds[k].duration <= most
    ensures TimeSpent(rounds, i, j) <= (j - i) * most
    decreases j
  {
    if i < j {
      TimeSpentAtMost(rounds, i, j - 1, most);
      assert (j - i) * most == (j - 1 - i) * most + most;
    }
  }

  /** Round `i` is the first of the failures that turned the service unhealthy at round `j`. */
  ghost predicate TurnedBy(spec: Spec, rounds: seq<Round>, i: nat, j: nat) {
    && i <= j < |rounds| && j + 1 - i == Max(1, spec.retries)
    && (forall k :: i <= k <= j ==> rounds[k].answer.Failed?)
    && (i > 0 ==> !rounds[i - 1].answer.Failed?)
  }

  /** An announcement comes at the threshold-th failure of its streak, and at no other round. */
  lemma UnhealthyAtThreshold(spec: Spec, rounds: seq<Round>, j: nat)
    requires j < |rounds|
    ensures SignalOf(spec, rounds, j) == Some(Unhealthy) <==> exists i :: TurnedBy(spec, rounds, i, j)
  {
    var k := FailuresAt(rounds, j + 1);
    FailuresAreFailed(rounds, j + 1);
    FailuresAreFailed(rounds, j);
    hide FailuresAt;
    FailuresNext(rounds, j);
    if SignalOf(spec, rounds, j) == Some(Unhealthy) {
      assert TurnedBy(spec, rounds, j + 1 - k, j);
    }
    if exists i :: TurnedBy(spec, rounds, i, j) {
      var i: nat :| TurnedBy(spec, rounds, i, j);
      StreakCounts(rounds, i, j + 1);
    }
  }

  lemma FailuresNext(rounds: seq<Round>, j: nat)
    requires j < |rounds|
    ensures FailuresAt(rounds, j + 1) == if rounds[j].answer.Failed? then FailuresAt(rounds, j) + 1 else 0
  {
  }

  lemma {:induction false} StreakCounts(rounds: seq<Round>, i: nat, n: nat)
    requires i <= n <= |rounds| && (forall k :: i <= k < n ==> rounds[k].answer.Failed?)
    requires i > 0 ==> !rounds[i - 1].answer.Failed?
    ensures FailuresAt(rounds, n) == n - i
    decreases n
  {
    if i < n {
      StreakCounts(rounds, i, n - 1);
    }
  }

  /** What the round has to announce: that the probe passed, or that the failures before it have become too many. */
  ghost predicate HasNews(spec: Spec, rounds: seq<Round>, i: nat, signal: Signal)
    requires i < |rounds|
  {
    match signal
    case Healthy => rounds[i].answer.Passed?
    case Unhealthy => exists first :: TurnedBy(spec, rounds, first, i)
  }

  lemma SignalIsNews(spec: Spec, rounds: seq<Round>, i: nat, signal: Signal)
    requires i < |rounds|
    ensures SignalOf(spec, rounds, i) == Some(signal) <==> HasNews(spec, rounds, i, signal)
  {
    UnhealthyAtThreshold(spec, rounds, i);
    hide IsUnhealthy;
    if signal.Unhealthy? && exists first :: TurnedBy(spec, rounds, first, i) {
      var first: nat :| TurnedBy(spec, rounds, first, i);
    }
  }

  /** A round that the loop gets through: its probe was not cancelled, and its news was taken. */
  ghost predicate GotThrough(spec: Spec, rounds: seq<Round>, i: nat)
    requires i < |rounds|
  {
    !rounds[i].answer.Cancelled? && forall signal :: HasNews(spec, rounds, i, signal) ==> rounds[i].accepted
  }

  lemma DeliversIs(spec: Spec, rounds: seq<Round>, i: nat)
    requires i < |rounds|
    ensures Delivers(spec, rounds, i) <==> GotThrough(spec, rounds, i)
  {
    SignalIsNews(spec, rounds, i, Healthy);
    SignalIsNews(spec, rounds, i, Unhealthy);
    hide SignalOf, HasNews;
    forall signal ensures HasNews(spec, rounds, i, signal) <==> SignalOf(spec, rounds, i) == Some(signal) {
      assert signal == Healthy || signal == Unhealthy;
    }
  }

  /**
   The loop goes on for as long as it can: it gets through every round that it delivers, pauses after each
   but the last, and ends early only where a pause was interrupted, a probe cancelled or news refused.
   */
  lemma {:induction false} DeliveredExactly(spec: Spec, rounds: seq<Round>, start: nat)
    requires start <= |rounds|
    ensures var n := DeliveredFrom(spec, rounds, start);
      && start <= n <= |rounds|
      && (forall i :: start <= i < n ==> GotThrough(spec, rounds, i) && (i + 1 < n ==> !rounds[i].interrupted))
      && (n < |rounds| ==> (start < n && rounds[n - 1].interrupted) || !GotThrough(spec, rounds, n))
    decreases |rounds| - start
  {
    if start < |rounds| {
      DeliversIs(spec, rounds, start);
      hide GotThrough, Delivers;
      if GoesOn(spec, rounds, start) {
        DeliveredExactly(spec, rounds, start + 1);
      }
    }
  }

  /**
   The events of the delivered rounds, one for each that has news and none for the others, in order: after
   the start delay, the probes so far and the pauses between them.
   */
  lemma {:induction false} EventsExactly(spec: Spec, rounds: seq<Round>, n: nat, e: Event)
    requires n <= |rounds|
    ensures e in EventsOf(spec, rounds, n)
       <==> e.round < n && HasNews(spec, rounds, e.round, e.signal)
            && e.at == spec.startDelay + TimeSpent(rounds, 0, e.round + 1) + e.round * spec.interval
    ensures forall p, q :: 0 <= p < q < |EventsOf(spec, rounds, n)| ==>
      EventsOf(spec, rounds, n)[p].round < EventsOf(spec, rounds, n)[q].round
  {
    EventsAre(spec, rounds, n, e);
    EventsRise(spec, rounds, n);
    if e.round < n {
      SignalIsNews(spec, rounds, e.round, e.signal);
      StartsApart(spec, rounds, 0, e.round);
    }
    hide EventsOf, SignalOf, HasNews;
  }

  ghost predicate RoundsRise(events: seq<Event>, n: nat) {
    && (forall p :: 0 <= p < |events| ==> events[p].round < n)
    && forall p, q :: 0 <= p < q < |events| ==> events[p].round < events[q].round
  }

  lemma {:induction false} EventsRise(spec: Spec, rounds: seq<Round>, n: nat)
    requires n <= |rounds|
    ensures RoundsRise(EventsOf(spec, rounds, n), n)
  {
    hide SignalOf, StartOf;
    if n > 0 {
      EventsRise(spec, rounds, n - 1);
    }
  }

  /**
   The announcement comes as long after the streak began as its probes took, plus the pauses between
   them. The pauses are in the documented bound too, so that what is left to compare are the probes,
   all together, with `retries` timeouts.
   */
  lemma LatencyExactly(spec: Spec, rounds: seq<Round>, n: nat, e: Event, i: nat, timeout: nat)
    requires n <= |rounds| && e in EventsOf(spec, rounds, n) && e.signal == Unhealthy
    requires TurnedBy(spec, rounds, i, e.round)
    ensures var retries := Threshold(spec.retries);
      && e.at == StartOf(spec, rounds, i) + TimeSpent(rounds, i, e.round + 1) + (retries - 1) * spec.interval
      && (e.at - StartOf(spec, rounds, i) <= retries * timeout + (retries - 1) * spec.interval
          <==> TimeSpent(rounds, i, e.round + 1) <= retries * timeout)
  {
    EventsAre(spec, rounds, n, e);
    StartsApart(spec, rounds, i, e.round);
    hide EventsOf, SignalOf, StartOf;
    assert e.round - i == Threshold(spec.retries) - 1;
  }

  /** Probes that each end within the timeout, cleanup included, meet the documented bound. */
  lemma {:induction false} LatencyBound(spec: Spec, rounds: seq<Round>, n: nat, e: Event, i: nat, timeout: nat)
    requires n <= |rounds| && e in EventsOf(spec, rounds, n) && e.signal == Unhealthy
    requires TurnedBy(spec, rounds, i, e.round)
    requires forall k :: i <= k <= e.round ==> rounds[k].duration <= timeout
    ensures var retries := Threshold(spec.retries);
      e.at - StartOf(spec, rounds, i) <= retries * timeout + (retries - 1) * spec.interval
  {
    LatencyExactly(spec, rounds, n, e, i, timeout);
    hide EventsOf, StartOf, TimeSpent;
    TimeSpentAtMost(rounds, i, e.round + 1, timeout);
  }

  ghost predicate ExceedsBound(spec: Spec, rounds: seq<Round>, e: Event, i: nat, timeout: nat) {
    && e in EventsOf(spec, rounds, |rounds|) && TurnedBy(spec, rounds, i, e.round)
    && e.at - StartOf(spec, rounds, i)
         > Threshold(spec.retries) * timeout + (Threshold(spec.retries) - 1) * spec.interval
  }

  /** A probe stopped at its timeout still has to be cleaned up, which the documented bound leaves out. */
  lemma CleanupExceedsBound(timeout: nat, cleanup: nat, interval: nat)
    requires cleanup > 0
    ensures exists rounds, e :: ExceedsBound(Spec(0, interval, 1), rounds, e, 0, timeout)
  {
    var spec, rounds := Spec(0, interval, 1), [Round(Failed, timeout + cleanup, true, false)];
    var e := Event(Unhealthy, 0, timeout + cleanup);
    assert IsUnhealthy(spec, rounds, 1) && !IsUnhealthy(spec, rounds, 0);
    EventsAre(spec, rounds, 1, e);
    assert ExceedsBound(spec, rounds, e, 0, timeout);
  }
}
