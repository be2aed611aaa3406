/** Nothing gets stuck: whatever has happened, the worker can settle everything without a further fault. */
module TelemetryProgress {
  import opened Wrappers
  import opened Telemetry

  /** A step of the worker in which no call fails. */
  predicate FaultFree(step: Step) {
    match step
    case Deliver(_) => true
    case RejectInvalid => true
    case RejectUnknown => true
    case SaveSucceeds => true
    case CacheReadSucceeds => true
    case CacheWriteSucceeds => true
    case Ack => true
    case _ => false
  }

  ghost predicate AllFaultFree(steps: seq<Step>) {
    forall i :: 0 <= i < |steps| ==> FaultFree(steps[i])
  }

  /** The rest of a handling, from whatever stage the worker is at. */
  function Finishing(): seq<Step> {
    [RejectInvalid] + Saving(NO_FAULTS) + Caching(NO_FAULTS)
  }

  lemma {:induction false} UnmovedRun(s: State, steps: seq<Step>)
    requires forall i :: 0 <= i < |steps| ==> Apply(s, steps[i]) == s
    ensures After(s, steps) == s
  {
    if steps != [] {
      UnmovedRun(s, steps[..|steps| - 1]);
    }
  }

  /** A message past its insert is not checked or stored again. */
  lemma StoredStaysPut(s: State, b: Body, step: Step)
    requires s.current.Some? && s.current.value.body == b && b.Valid() && !s.current.value.stage.Received?
    requires step.RejectInvalid? || step.RejectUnknown? || step.SaveSucceeds?
    ensures Apply(s, step) == s
  {
  }

  lemma FinishStale(s: State, b: Body)
    requires s.current == Some(Current(b, CacheStale)) && b.Valid()
    ensures var t := After(s, Caching(NO_FAULTS)); t.current.None? && t.ready == s.ready
  {
    AfterThree(s, CacheReadSucceeds, CacheWriteSucceeds, Ack);
    assert Apply(s, CacheReadSucceeds) == s;
    WriteStep(s, b, NO_FAULTS);
    AckStep(Apply(s, CacheWriteSucceeds), b, NO_FAULTS);
  }

  lemma FinishHandled(s: State, b: Body)
    requires s.current == Some(Current(b, Handled)) && b.Valid()
    ensures var t := After(s, Caching(NO_FAULTS)); t.current.None? && t.ready == s.ready
  {
    AfterThree(s, CacheReadSucceeds, CacheWriteSucceeds, Ack);
    assert Apply(s, CacheReadSucceeds) == s;
    AckStep(s, b, NO_FAULTS);
  }

  lemma FinishStored(s: State, b: Body)
    requires s.current.Some? && s.current.value.body == b && b.Valid() && !s.current.value.stage.Received?
    ensures var t := After(s, Finishing()); t.current.None? && t.ready == s.ready
  {
    AfterPhases(s, NO_FAULTS);
    StoredStaysPut(s, b, RejectInvalid);
    StoredStaysPut(s, b, RejectUnknown);
    StoredStaysPut(s, b, SaveSucceeds);
    UnmovedRun(s, [RejectInvalid]);
    UnmovedRun(s, Saving(NO_FAULTS));
    match s.current.value.stage
    case Stored => CachePhase(s, b, NO_FAULTS);
    case CacheStale => FinishStale(s, b);
    case Handled => FinishHandled(s, b);
  }

  lemma FinishCurrent(s: State)
    requires StageHolds(s) && s.current.Some?
    ensures var t := After(s, Finishing()); t.current.None? && t.ready == s.ready
  {
    var b := s.current.value.body;
    if s.current.value.stage.Received? {
      ReceivedRun(s, b, NO_FAULTS);
    } else {
      FinishStored(s, b);
    }
  }

  lemma HandlingSettles(s: State, b: Body)
    requires s.current.None? && b in s.ready
    ensures var t := After(s, Handling(b, NO_FAULTS)); t.current.None? && t.ready == s.ready - multiset{b}
    ensures |s.ready - multiset{b}| == |s.ready| - 1
  {
    HandlingOutcome(s, b, NO_FAULTS);
  }

  lemma HandlingIsFaultFree(b: Body)
    ensures AllFaultFree(Handling(b, NO_FAULTS)) && |Handling(b, NO_FAULTS)| == 7
  {
  }

  lemma FinishingIsFaultFree()
    ensures AllFaultFree(Finishing()) && |Finishing()| == 6
  {
  }

  /** One run, then a fault-free run that drains. */
  lemma ThenDrain(s: State, first: seq<Step>, rest: seq<Step>)
    requires AllFaultFree(first) && AllFaultFree(rest) && Drained(After(After(s, first), rest))
    ensures AllFaultFree(first + rest) && Drained(After(s, first + rest))
  {
    AfterConcat(s, first, rest);
  }

  lemma {:induction false} DrainQueue(s: State) returns (steps: seq<Step>)
    requires s.current.None?
    ensures AllFaultFree(steps) && |steps| == 7 * |s.ready|
    ensures Drained(After(s, steps))
    decreases |s.ready|
  {
    if s.ready == multiset{} {
      steps := [];
    } else {
      var b :| b in s.ready;
      var first := Handling(b, NO_FAULTS);
      HandlingSettles(s, b);
      HandlingIsFaultFree(b);
      var rest := DrainQueue(After(s, first));
      ThenDrain(s, first, rest);
      steps := first + rest;
    }
  }

  lemma FaultFreeSendsNothing(steps: seq<Step>)
    requires AllFaultFree(steps)
    ensures Sent(steps) == {} && FleetFixed(steps)
  {
    NothingSent(steps);
  }

  lemma FinishAndDrain(s: State) returns (more: seq<Step>)
    requires StageHolds(s)
    ensures AllFaultFree(more) && |more| <= 7 * |s.ready| + 6
    ensures Drained(After(s, more))
  {
    if s.current.None? {
      more := DrainQueue(s);
    } else {
      FinishCurrent(s);
      FinishingIsFaultFree();
      var rest := DrainQueue(After(s, Finishing()));
      ThenDrain(s, Finishing(), rest);
      more := Finishing() + rest;
    }
  }

  /** From every reachable state some fault-free steps, seven per message at most, settle every message. */
  lemma AlwaysDrains(s0: State, steps: seq<Step>) returns (more: seq<Step>)
    requires Empty(s0)
    ensures AllFaultFree(more) && |more| <= 7 * |After(s0, steps).ready| + 6
    ensures Drained(After(s0, steps + more)) && Sent(steps + more) == Sent(steps)
  {
    RunKeepsInv(s0, steps);
    more := FinishAndDrain(After(s0, steps));
    AfterConcat(s0, steps, more);
    SentConcat(steps, more);
    FaultFreeSendsNothing(more);
  }

  /** And those steps bring table and cache to the specification, whatever failed before. */
  lemma AlwaysRecovers(s0: State, steps: seq<Step>) returns (more: seq<Step>)
    requires Empty(s0) && FleetFixed(steps) && OnePayloadPerKey(s0.vehicles, Sent(steps))
    ensures AllFaultFree(more)
    ensures var s := After(s0, steps + more);
            && (forall m :: m in s.rows <==> Fields(m) in Sent(steps) && Accepted(s0.vehicles, Fields(m)))
            && UniqueKeys(s.rows) && NewestOf(s.rows, s.cache)
  {
    more := AlwaysDrains(s0, steps);
    FaultFreeSendsNothing(more);
    DrainedMeetsSpec(s0, steps + more);
  }
}
