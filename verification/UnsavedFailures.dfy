/**
 A process that cannot save a failure keeps it in its own memory and applies the clearing rule when
 it reads (src/arail/deep_verdict.py: `_mem_note`, `_passed_since`, `_assemble`). The question is
 whether what it reports is what it would report had every save worked.
 */
module UnsavedFailures {
  import opened Basics
  import opened VerdictRecord

  datatype State = Failing | Passing | Untested

  /** The fields of a verdict that decide anything. */
  datatype Report = Report(state: State, failure: Option<Failure>, lastProbe: Option<Probe>)

  /** Did a stored passing probe start strictly after the failure was last seen? */
  predicate PassedSince(f: Failure, lp: Option<Probe>) {
    lp.Some? && lp.value.outcome.Passed? && f.last.ts < lp.value.startedTs
  }

  /** The in-memory failure as a read sees it. */
  function Visible(mem: Option<Failure>, lp: Option<Probe>): Option<Failure> {
    if mem.Some? && PassedSince(mem.value, lp) then None else mem
  }

  /** The failure a verdict carries: the stored one, unless the one in memory is newer. */
  function Shown(stored: Option<Failure>, visible: Option<Failure>): Option<Failure> {
    if stored.None? then visible
    else if visible.Some? && visible.value.last.ts > stored.value.last.ts then visible
    else stored
  }

  /** `_assemble` for a readable store and an identified binary. */
  function Assemble(stored: Entry, mem: Option<Failure>): Report {
    var f := Shown(stored.failure, Visible(mem, stored.lastProbe));
    if f.Some? then Report(Failing, f, stored.lastProbe)
    else if stored.lastProbe.Some? && stored.lastProbe.value.outcome.Passed? then Report(Passing, None, stored.lastProbe)
    else Report(Untested, None, stored.lastProbe)
  }

  /** What is shown is the newer of the two, the stored one where they tie. */
  lemma ShownIsNewer(stored: Option<Failure>, visible: Option<Failure>)
    ensures Shown(stored, visible) == None <==> stored == None && visible == None
    ensures stored.Some? ==> Shown(stored, visible).value.last.ts >= stored.value.last.ts
    ensures visible.Some? ==> Shown(stored, visible).value.last.ts >= visible.value.last.ts
    ensures Shown(stored, visible) == stored || Shown(stored, visible) == visible
    ensures stored.Some? && visible.Some? && stored.value.last.ts == visible.value.last.ts ==> Shown(stored, visible) == stored
  {
  }

  /**
   What a verdict of a whole log says, where nothing is kept in memory and stamps are in lock order and not in the
   future: untested exactly while nothing is logged, failing exactly while a failure stands, and passing
   otherwise; the probe it names is the one recorded last.
   */
  lemma VerdictOfLog(log: seq<Event>)
    requires WellTimed(log)
    ensures var told := Assemble(Run(log), None);
            && (told.state.Untested? <==> log == [])
            && (told.state.Failing? <==> exists i :: Standing(log, i))
            && (told.state.Passing? <==> log != [] && !exists i :: Standing(log, i))
            && (told.failure.Some? <==> told.state.Failing?)
            && forall i :: IsLastProbe(log, i) ==> told.lastProbe == Some(log[i].probe)
  {
    RecordMeansStanding(log);
    RunKeepsInvariant(log);
    LastProbeIsNewest(log);
  }

  /** `_mem_note`: a failure after a passing probe starts a record of its own. */
  function MemNote(mem: Option<Failure>, lp: Option<Probe>, source: Source, now: Stamp): Failure {
    NewOrBumped(Visible(mem, lp), source, now)
  }

  /** This process's own failures, whose save may work or not, and what others record. */
  datatype Step =
    | Own(now: Stamp, source: Source, saved: bool)
    | Other(ev: Event)

  function EventOf(s: Step): Event {
    match s
    case Own(now, source, _) => CallFailed(now, source)
    case Other(ev) => ev
  }

  datatype Process = Process(stored: Entry, mem: Option<Failure>)

  function Next(p: Process, s: Step): Process {
    match s
    case Own(now, source, true) => Process(Apply(p.stored, EventOf(s)), None)
    case Own(now, source, false) => p.(mem := Some(MemNote(p.mem, p.stored.lastProbe, source, now)))
    case Other(ev) => p.(stored := Apply(p.stored, ev))
  }

  function RunProcess(steps: seq<Step>): Process {
    if steps == [] then Process(BLANK, None) else Next(RunProcess(steps[..|steps| - 1]), steps[|steps| - 1])
  }

  /** The log as it would be had every save worked. */
  function Events(steps: seq<Step>): seq<Event> {
    seq(|steps|, i requires 0 <= i < |steps| => EventOf(steps[i]))
  }

  predicate Unsaved(s: Step) {
    s.Own? && !s.saved
  }

  /**
   The clock as the process needs it: failure stamps follow lock order and none lies more than the slack
   ahead of a later pass; a pass recorded later began later; and an unsaved failure is not stamped before
   the beginning of a pass already on record.
   */
  ghost predicate InOrder(steps: seq<Step>) {
    var log := Events(steps);
    && WellTimed(log)
    && (forall i, j :: 0 <= i < j < |log| && IsPass(log[i]) && IsPass(log[j]) ==>
          log[i].probe.startedTs <= log[j].probe.startedTs)
    && (forall i, j :: 0 <= i < j < |log| && IsPass(log[i]) && Unsaved(steps[j]) ==>
          log[i].probe.startedTs <= log[j].now.ts)
  }

  /**
   How the store and the memory of the process relate to the record `r` of an undisturbed store, when no
   failure so far is stamped after `bound`.
   */
  ghost predicate Agree(p: Process, r: Entry, bound: real) {
    var v := Visible(p.mem, p.stored.lastProbe);
    var shown := Shown(p.stored.failure, v);
    && p.stored.lastProbe == r.lastProbe
    && (p.mem.Some? ==> p.mem.value.last.ts <= bound)
    && (p.stored.failure.Some? ==> r.failure.Some? && p.stored.failure.value.last.ts <= r.failure.value.last.ts)
    && (v.Some? ==> r.failure.Some? && v.value.last.ts <= r.failure.value.last.ts)
    && (r.failure.Some? ==> shown.Some? && shown.value.last.ts == r.failure.value.last.ts <= bound)
  }

  /** The next step keeps the order, after failures stamped up to `bound` and with `lp` on record. */
  ghost predicate FollowsOn(lp: Option<Probe>, bound: real, s: Step) {
    var ev := EventOf(s);
    var pass := lp.Some? && lp.value.outcome.Passed?;
    && (IsFailure(ev) ==> bound <= ev.now.ts)
    && (IsPass(ev) ==> bound <= ev.lockedAt + CLOCK_SLACK && (pass ==> lp.value.startedTs <= ev.probe.startedTs))
    && (Unsaved(s) && pass ==> lp.value.startedTs <= ev.now.ts)
  }

  lemma FailureKeepsAgreement(p: Process, r: Entry, bound: real, s: Step)
    requires Agree(p, r, bound) && IsFailure(EventOf(s)) && FollowsOn(r.lastProbe, bound, s)
    ensures Agree(Next(p, s), Apply(r, EventOf(s)), EventOf(s).now.ts)
  {
  }

  lemma PassKeepsAgreement(p: Process, r: Entry, bound: real, s: Step)
    requires Agree(p, r, bound) && IsPass(EventOf(s)) && FollowsOn(r.lastProbe, bound, s)
    ensures Agree(Next(p, s), Apply(r, EventOf(s)), bound)
  {
  }

  /** Step `i` is a probe, and the one the record holds. */
  ghost predicate HoldsProbe(steps: seq<Step>, i: int) {
    0 <= i < |steps| && steps[i].Other? && steps[i].ev.Probed?
    && Run(Events(steps)).lastProbe == Some(steps[i].ev.probe)
  }

  lemma EventsPrefix(steps: seq<Step>)
    requires steps != []
    ensures Events(steps)[..|steps| - 1] == Events(steps[..|steps| - 1])
  {
  }

  lemma {:induction false} LastProbeIsSomeStep(steps: seq<Step>)
    ensures Run(Events(steps)).lastProbe.Some? ==> exists i :: HoldsProbe(steps, i)
  {
    if steps != [] {
      var n := |steps| - 1;
      LastProbeIsSomeStep(steps[..n]);
      EventsPrefix(steps);
      if EventOf(steps[n]).Probed? {
        assert HoldsProbe(steps, n);
      } else if i :| HoldsProbe(steps[..n], i) {
        assert HoldsProbe(steps, i);
      }
    }
  }

  lemma InOrderPrefix(steps: seq<Step>)
    requires steps != [] && InOrder(steps)
    ensures InOrder(steps[..|steps| - 1])
  {
    var log, prev := Events(steps), Events(steps[..|steps| - 1]);
    assert forall i :: 0 <= i < |prev| ==> prev[i] == log[i];
  }

  /** Every failure so far is stamped at `bound` or before. */
  ghost predicate StampedBy(steps: seq<Step>, bound: real) {
    forall i :: 0 <= i < |steps| && IsFailure(EventOf(steps[i])) ==> EventOf(steps[i]).now.ts <= bound
  }

  /** What the last step could come after: failures up to `bound`, cut off at the step's own time. */
  function BoundBefore(s: Step, bound: real): real {
    var ev := EventOf(s);
    var own := if IsPass(ev) then ev.lockedAt + CLOCK_SLACK else ev.now.ts;
    if own < bound then own else bound
  }

  lemma LastStepFollowsOn(steps: seq<Step>, bound: real)
    requires steps != [] && InOrder(steps) && StampedBy(steps, bound)
    ensures var n := |steps| - 1; var before := BoundBefore(steps[n], bound);
            StampedBy(steps[..n], before) && FollowsOn(Run(Events(steps[..n])).lastProbe, before, steps[n])
  {
    var n := |steps| - 1;
    var prev, log := steps[..n], Events(steps);
    assert forall i :: 0 <= i < |steps| ==> log[i] == EventOf(steps[i]);
    forall i | 0 <= i < n && IsFailure(EventOf(prev[i])) ensures EventOf(prev[i]).now.ts <= BoundBefore(steps[n], bound) {
      assert log[i] == EventOf(steps[i]) && log[n] == EventOf(steps[n]);
    }
    LastProbeIsSomeStep(prev);
    if i :| HoldsProbe(prev, i) {
      assert log[i] == prev[i].ev && log[n] == EventOf(steps[n]);
    }
  }

  lemma {:induction false} RunKeepsAgreement(steps: seq<Step>, bound: real)
    requires InOrder(steps) && StampedBy(steps, bound)
    ensures Agree(RunProcess(steps), Run(Events(steps)), bound)
  {
    if steps != [] {
      var n := |steps| - 1;
      var prev, s, before := steps[..n], steps[n], BoundBefore(steps[n], bound);
      InOrderPrefix(steps);
      LastStepFollowsOn(steps, bound);
      RunKeepsAgreement(prev, before);
      EventsPrefix(steps);
      assert Events(steps)[n] == EventOf(s);
      if IsPass(EventOf(s)) {
        PassKeepsAgreement(RunProcess(prev), Run(Events(prev)), before, s);
        AgreeLater(RunProcess(steps), Run(Events(steps)), before, bound);
      } else {
        FailureKeepsAgreement(RunProcess(prev), Run(Events(prev)), before, s);
        AgreeLater(RunProcess(steps), Run(Events(steps)), EventOf(s).now.ts, bound);
      }
    }
  }

  lemma AgreeLater(p: Process, r: Entry, t: real, bound: real)
    requires Agree(p, r, t) && t <= bound
    ensures Agree(p, r, bound)
  {
  }

  /**
   Whatever mix of its own saved and unsaved failures and of other processes' events a process has
   seen, its report has the state, the last probe and the failure time of a process whose saves all
   worked.
   */
  lemma UnsavedFailuresChangeNothing(steps: seq<Step>)
    requires InOrder(steps)
    ensures var p := RunProcess(steps);
            var actual, ideal := Assemble(p.stored, p.mem), Assemble(Run(Events(steps)), None);
            && actual.state == ideal.state
            && actual.lastProbe == ideal.lastProbe
            && (actual.failure.Some? <==> ideal.failure.Some?)
            && (actual.failure.Some? ==> actual.failure.value.last.ts == ideal.failure.value.last.ts)
  {
    assert forall i :: 0 <= i < |steps| ==> EventOf(steps[i]) == Events(steps)[i];
    RunKeepsAgreement(steps, LatestStamp(Events(steps)));
  }

  // ----- what happens out of order -----

  /** The state the process reports is the state of the saved record. */
  ghost predicate SameState(p: Process, r: Entry) {
    Assemble(p.stored, p.mem).state == Assemble(r, None).state
  }

  /**
   What the process can see, before step `s`, of whether the step will part it from the saved record: its
   own unsaved failure is hidden at once by a pass that began later, with nothing else on record to show;
   or a pass that clears the record leaves a remembered failure stamped since the pass began.
   */
  predicate StaysTogether(p: Process, s: Step) {
    var lp, visible := p.stored.lastProbe, Visible(p.mem, p.stored.lastProbe);
    var shown := Shown(p.stored.failure, visible);
    match s
    case Own(now, _, saved) =>
      saved || p.stored.failure.Some? || !(lp.Some? && lp.value.outcome.Passed? && now.ts < lp.value.startedTs)
    case Other(CallFailed(_, _)) => true
    case Other(Probed(next, _, lockedAt)) =>
      next.outcome.Failed?
      || (p.mem.Some? && next.startedTs <= p.mem.value.last.ts ==>
            shown.Some? && LandedDuringProbe(shown.value.last.ts, next.startedTs, lockedAt))
  }

  /** From agreement, with no assumption at all about the next step, the two stay together exactly then. */
  lemma NextStepAgreesIff(p: Process, r: Entry, bound: real, s: Step)
    requires Agree(p, r, bound)
    ensures SameState(Next(p, s), Apply(r, EventOf(s))) <==> StaysTogether(p, s)
  {
  }

  // ----- whole runs on a clock that is in order, and nothing else -----

  /** What holds after every well-timed run, whether or not the two say the same. */
  ghost predicate Related(p: Process, r: Entry, bound: real) {
    var stored, mem := p.stored.failure, p.mem;
    && p.stored.lastProbe == r.lastProbe
    && (stored.Some? ==> r.failure.Some? && stored.value.last.ts <= r.failure.value.last.ts)
    && (mem.Some? ==> mem.value.last.ts <= bound && (r.failure.Some? ==> mem.value.last.ts <= r.failure.value.last.ts))
    && (r.failure.Some? ==> r.failure.value.last.ts <= bound
                            && ((stored.Some? && stored.value.last.ts == r.failure.value.last.ts)
                                || (mem.Some? && mem.value.last.ts == r.failure.value.last.ts)))
  }

  predicate InTime(bound: real, s: Step) {
    var ev := EventOf(s);
    if IsPass(ev) then bound <= ev.lockedAt + CLOCK_SLACK else bound <= ev.now.ts
  }

  /** No failure after the step is stamped past this, if none before it is stamped past `bound`. */
  function BoundAfter(bound: real, s: Step): real {
    if IsPass(EventOf(s)) then bound else EventOf(s).now.ts
  }

  lemma StepKeepsRelated(p: Process, r: Entry, bound: real, s: Step)
    requires Related(p, r, bound) && InTime(bound, s)
    ensures Related(Next(p, s), Apply(r, EventOf(s)), BoundAfter(bound, s))
  {
  }

  lemma RelatedLater(p: Process, r: Entry, t: real, bound: real)
    requires Related(p, r, t) && t <= bound
    ensures Related(p, r, bound)
  {
  }

  lemma LastStepInTime(steps: seq<Step>, bound: real)
    requires steps != [] && WellTimed(Events(steps)) && StampedBy(steps, bound)
    ensures var n := |steps| - 1; var before := BoundBefore(steps[n], bound);
            && WellTimed(Events(steps[..n])) && StampedBy(steps[..n], before) && InTime(before, steps[n])
            && BoundAfter(before, steps[n]) <= bound
  {
    var n := |steps| - 1;
    var prev, log := steps[..n], Events(steps);
    assert forall i :: 0 <= i < |steps| ==> log[i] == EventOf(steps[i]);
    assert forall i :: 0 <= i < n ==> Events(prev)[i] == log[i];
    forall i | 0 <= i < n && IsFailure(EventOf(prev[i])) ensures EventOf(prev[i]).now.ts <= BoundBefore(steps[n], bound) {
      assert log[i] == EventOf(steps[i]) && log[n] == EventOf(steps[n]);
    }
  }

  lemma {:induction false} RelatedAlways(steps: seq<Step>, bound: real)
    requires WellTimed(Events(steps)) && StampedBy(steps, bound)
    ensures Related(RunProcess(steps), Run(Events(steps)), bound)
  {
    if steps != [] {
      var n := |steps| - 1;
      var prev, s, before := steps[..n], steps[n], BoundBefore(steps[n], bound);
      LastStepInTime(steps, bound);
      RelatedAlways(prev, before);
      EventsPrefix(steps);
      assert Events(steps)[n] == EventOf(s);
      StepKeepsRelated(RunProcess(prev), Run(Events(prev)), before, s);
      RelatedLater(RunProcess(steps), Run(Events(steps)), BoundAfter(before, s), bound);
    }
  }

  /** What the process can see, on a clock in order, of whether step `s` parts it from the saved record. */
  predicate KeepsTogether(p: Process, s: Step) {
    var lp := p.stored.lastProbe;
    match s
    case Own(now, _, saved) =>
      saved || p.stored.failure.Some? || !(lp.Some? && lp.value.outcome.Passed? && now.ts < lp.value.startedTs)
    case Other(CallFailed(_, _)) => true
    case Other(Probed(next, _, _)) =>
      next.outcome.Failed? || (p.mem.Some? && next.startedTs <= p.mem.value.last.ts ==> Assemble(p.stored, p.mem).state.Failing?)
  }

  lemma NextTogetherIff(p: Process, r: Entry, bound: real, s: Step)
    requires Related(p, r, bound) && InTime(bound, s) && SameState(p, r)
    ensures SameState(Next(p, s), Apply(r, EventOf(s))) <==> KeepsTogether(p, s)
  {
  }

  /** After every prefix of the run the process reports the state of the saved record. */
  ghost predicate TogetherThroughout(steps: seq<Step>) {
    SameState(RunProcess(steps), Run(Events(steps))) && (steps == [] || TogetherThroughout(steps[..|steps| - 1]))
  }

  predicate KeptThroughout(steps: seq<Step>) {
    steps == [] || (KeptThroughout(steps[..|steps| - 1]) && KeepsTogether(RunProcess(steps[..|steps| - 1]), steps[|steps| - 1]))
  }

  /**
   Over every run whose stamps are in lock order and none in the future: the process says what the saved
   record says all along exactly when every step keeps them together, as the process itself could tell
   before taking it.
   */
  lemma {:induction false} TogetherThroughoutIff(steps: seq<Step>)
    requires WellTimed(Events(steps))
    ensures TogetherThroughout(steps) <==> KeptThroughout(steps)
  {
    if steps != [] {
      var n, bound := |steps| - 1, LatestStamp(Events(steps));
      var before := BoundBefore(steps[n], bound);
      assert forall i :: 0 <= i < |steps| ==> EventOf(steps[i]) == Events(steps)[i];
      LastStepInTime(steps, bound);
      TogetherThroughoutIff(steps[..n]);
      RelatedAlways(steps[..n], before);
      EventsPrefix(steps);
      if TogetherThroughout(steps[..n]) {
        NextTogetherIff(RunProcess(steps[..n]), Run(Events(steps[..n])), before, steps[n]);
      }
    }
  }

  // ----- the ways to part -----

  lemma RunOfTwo(a: Step, b: Step)
    ensures RunProcess([a, b]) == Next(Next(Process(BLANK, None), a), b)
    ensures Run(Events([a, b])) == Apply(Apply(BLANK, EventOf(a)), EventOf(b))
  {
    var steps, log := [a, b], Events([a, b]);
    assert steps[..1] == [a] && [a][..0] == [];
    assert RunProcess([a]) == Next(Process(BLANK, None), a);
    assert log[..1] == [EventOf(a)] && [EventOf(a)][..0] == [];
    assert Run(log[..1]) == Apply(BLANK, log[0]);
  }

  lemma RunOfThree(a: Step, b: Step, c: Step)
    ensures RunProcess([a, b, c]) == Next(RunProcess([a, b]), c)
    ensures Run(Events([a, b, c])) == Apply(Run(Events([a, b])), EventOf(c))
  {
    assert [a, b, c][..2] == [a, b];
    EventsPrefix([a, b, c]);
  }

  /**
   A stamp in the future: after one unsaved failure and one later pass the process agrees with the saved
   record exactly when the failure is not stamped past the slack, or is older than the probe.
   */
  lemma OnePassAgreesIffNotInFuture(now: Stamp, source: Source, lp: Probe, at: Stamp, lockedAt: real)
    requires lp.outcome.Passed?
    ensures var steps := [Own(now, source, false), Other(Probed(lp, at, lockedAt))];
            SameState(RunProcess(steps), Run(Events(steps))) <==> now.ts <= lockedAt + CLOCK_SLACK || now.ts < lp.startedTs
  {
    RunOfTwo(Own(now, source, false), Other(Probed(lp, at, lockedAt)));
  }

  /**
   A late save: an unsaved failure after a pass is reported exactly when it is not stamped before the pass
   began, whatever the clock said otherwise. The saved record fails in any case.
   */
  lemma LateFailureAgreesIffNotBeforePass(now: Stamp, source: Source, lp: Probe, at: Stamp, lockedAt: real)
    requires lp.outcome.Passed?
    ensures var steps := [Other(Probed(lp, at, lockedAt)), Own(now, source, false)];
            && WellTimed(Events(steps)) && Assemble(Run(Events(steps)), None).state == Failing
            && (SameState(RunProcess(steps), Run(Events(steps))) <==> lp.startedTs <= now.ts)
  {
    RunOfTwo(Other(Probed(lp, at, lockedAt)), Own(now, source, false));
  }

  /**
   Overlapping probes: of two passes after an unsaved failure, the one recorded later brings it back exactly
   when it began no later than the failure and the other began after it.
   */
  lemma OverlapAgreesIff(now: Stamp, source: Source, a: Probe, b: Probe, at: Stamp, lockedAt: real)
    requires a.outcome.Passed? && b.outcome.Passed? && now.ts <= lockedAt + CLOCK_SLACK
    ensures var steps := [Own(now, source, false), Other(Probed(a, at, lockedAt)), Other(Probed(b, at, lockedAt))];
            && WellTimed(Events(steps))
            && (SameState(RunProcess(steps), Run(Events(steps))) <==> !(b.startedTs <= now.ts < a.startedTs))
  {
    RunOfTwo(Own(now, source, false), Other(Probed(a, at, lockedAt)));
    RunOfThree(Own(now, source, false), Other(Probed(a, at, lockedAt)), Other(Probed(b, at, lockedAt)));
  }

  /**
   Stamps out of lock order: an unsaved failure, then another process's saved one stamped earlier, then a
   pass. The process agrees with the saved record exactly when the pass did not begin between the two.
   */
  lemma OutOfOrderAgreesIff(now: Stamp, source: Source, early: Stamp, lp: Probe, at: Stamp, lockedAt: real)
    requires lp.outcome.Passed? && early.ts <= now.ts <= lockedAt + CLOCK_SLACK
    ensures var steps := [Own(now, source, false), Other(CallFailed(early, source)), Other(Probed(lp, at, lockedAt))];
            && StampsNotInFuture(Events(steps))
            && (SameState(RunProcess(steps), Run(Events(steps))) <==> !(early.ts < lp.startedTs <= now.ts))
  {
    RunOfTwo(Own(now, source, false), Other(CallFailed(early, source)));
    RunOfThree(Own(now, source, false), Other(CallFailed(early, source)), Other(Probed(lp, at, lockedAt)));
  }
}
