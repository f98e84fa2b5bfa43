/** One write call inside any run: what its own steps and the version it found say about its outcome and its stores. */
module VersionCalls {
  import opened Wrappers
  import opened VersionProtocol

  // ----- the states along a run

  /** All states of a run, and for each step the outcome of the call that it ends. */
  datatype Trace<C> = Trace(states: seq<State<C>>, outcomes: seq<Option<Outcome<C>>>)

  /** Step `k` leads from its state to the next one, with its outcome. */
  predicate IsStep<C(==)>(client: Client, schedule: seq<(nat, Action<C>)>, trace: Trace<C>, k: nat)
    requires k < |schedule| == |trace.outcomes| && |trace.states| == |schedule| + 1
  {
    Next(client, trace.states[k], schedule[k].0, schedule[k].1) == Some((trace.states[k + 1], trace.outcomes[k]))
  }

  ghost predicate IsTrace<C(!new)>(
      client: Client, version: nat, config: C, schedule: seq<(nat, Action<C>)>, trace: Trace<C>)
  {
    && |trace.states| == |schedule| + 1 && |trace.outcomes| == |schedule|
    && trace.states[0] == Start(version, config)
    && forall k :: 0 <= k < |schedule| ==> IsStep(client, schedule, trace, k)
  }

  function Outcomes<C>(outcomes: seq<Option<Outcome<C>>>): seq<Outcome<C>> {
    if outcomes == [] then []
    else
      var n := |outcomes| - 1;
      if outcomes[n].None? then Outcomes(outcomes[..n]) else Outcomes(outcomes[..n]) + [outcomes[n].value]
  }

  lemma OneStepMore<C(!new)>(
      client: Client, version: nat, config: C, schedule: seq<(nat, Action<C>)>, trace: Trace<C>, longer: Trace<C>)
    requires schedule != [] && |longer.outcomes| == |schedule| && |longer.states| == |schedule| + 1
    requires IsTrace(client, version, config, schedule[..|schedule| - 1], trace)
    requires longer.states == trace.states + [longer.states[|schedule|]]
    requires longer.outcomes == trace.outcomes + [longer.outcomes[|schedule| - 1]]
    requires IsStep(client, schedule, longer, |schedule| - 1)
    ensures IsTrace(client, version, config, schedule, longer)
  {
    var n := |schedule| - 1;
    forall k | 0 <= k < n ensures IsStep(client, schedule, longer, k) {
      assert IsStep(client, schedule[..n], trace, k);
    }
  }

  /** Every run has its trace, which ends in its state and lists its history. */
  lemma {:induction false} RunHasTrace<C(!new)>(
      client: Client, version: nat, config: C, schedule: seq<(nat, Action<C>)>) returns (trace: Trace<C>)
    requires Run(client, Start(version, config), schedule).Some?
    ensures IsTrace(client, version, config, schedule, trace)
    ensures Run(client, Start(version, config), schedule)
         == Some((trace.states[|schedule|], Outcomes(trace.outcomes)))
  {
    if schedule == [] {
      trace := Trace([Start(version, config)], []);
    } else {
      var n := |schedule| - 1;
      var shorter := RunHasTrace(client, version, config, schedule[..n]);
      var (s, o) := Next(client, shorter.states[n], schedule[n].0, schedule[n].1).value;
      trace := Trace(shorter.states + [s], shorter.outcomes + [o]);
      OneStepMore(client, version, config, schedule, shorter, trace);
      assert trace.outcomes[..n] == shorter.outcomes;
    }
  }

  lemma {:induction false} TraceRepresents<C(!new)>(
      client: Client, version: nat, config: C, schedule: seq<(nat, Action<C>)>, trace: Trace<C>, k: nat)
    returns (r: Register<C>)
    requires version <= U64_MAX && IsTrace(client, version, config, schedule, trace) && k <= |schedule|
    ensures Represents(client, trace.states[k], r)
  {
    if k == 0 {
      r := Register(version, config);
    } else {
      var before := TraceRepresents(client, version, config, schedule, trace, k - 1);
      assert IsStep(client, schedule, trace, k - 1);
      StepRefines(client, trace.states[k - 1], before, schedule[k - 1].0, schedule[k - 1].1);
      r := if trace.outcomes[k - 1].None? then before else After(before, trace.outcomes[k - 1].value);
    }
  }

  // ----- a write call

  /** Steps `i` to `j` of the run are a write call of `pid`: it asks for the lock at `i` and has its outcome at `j`. */
  ghost predicate IsWriteCall<C(!new)>(
      schedule: seq<(nat, Action<C>)>, trace: Trace<C>, pid: nat, requested: Option<nat>, config: C, i: nat, j: nat)
  {
    && i < j < |schedule| == |trace.outcomes|
    && schedule[i] == (pid, AcquireWrite(requested, config))
    && schedule[j].0 == pid && trace.outcomes[j].Some?
    && forall k :: i < k < j && schedule[k].0 == pid ==> trace.outcomes[k].None?
  }

  /** `pid` takes step `a` somewhere between steps `i` and `j`. */
  predicate Takes<C(==)>(schedule: seq<(nat, Action<C>)>, pid: nat, i: int, j: int, a: Action<C>) {
    exists k :: 0 <= i < k < j && k < |schedule| && schedule[k] == (pid, a)
  }

  /** Where a call stands: `saves` and `failures` say whether it has taken a `Save(true)` or a `Save(false)`. */
  predicate CallStands<C(==)>(
      client: Client, s: State<C>, pid: nat, requested: Option<nat>, config: C, version: nat, before: C,
      saves: bool, failures: bool)
  {
    && s.writer == Some(pid)
    && match s.Of(pid)
       case Locked(r, c) =>
         r == requested && c == config && s.version == version && s.config == before && !saves && !failures
       case Refused(r) =>
         && r == requested && !Allowed(requested, version) && s.version == version && s.config == before
         && !saves && !failures
       case Reserved(r, c, n) =>
         && r == requested && c == config && n == version + 1 && Allowed(requested, version)
         && s.version == version && s.config == before && !saves && !failures
       case Failed(r) =>
         && r == requested && Allowed(requested, version) && s.version == version && s.config == before
         && !saves && failures && client == ThoughtConfig
       case Saved(r, c, n) =>
         && r == requested && c == config && n == version + 1 && Allowed(requested, version)
         && s.version == version && s.config == before && saves && !failures && client == ThoughtConfig
       case HalfStored(r, c, n) =>
         && r == requested && c == config && n == version + 1 && Allowed(requested, version)
         && (if client == ThoughtConfig then s.version == version && s.config == config
             else s.version == version + 1 && s.config == before)
         && !failures && (saves <==> client == ThoughtConfig)
       case Stored(r, c, n) =>
         && r == requested && c == config && n == version + 1 && Allowed(requested, version)
         && s.version == version + 1 && s.config == config && !failures && (saves <==> client == ThoughtConfig)
       case _ => false
  }

  /** While one process holds the write lock, nobody else has a step to take. */
  lemma OnlyTheWriterSteps<C(!new)>(client: Client, s: State<C>, r: Register<C>, pid: nat, a: Action<C>)
    requires Represents(client, s, r) && s.writer.Some? && Next(client, s, pid, a).Some?
    ensures s.writer == Some(pid)
  {
  }

  lemma CallStepStands<C>(
      client: Client, s: State<C>, pid: nat, a: Action<C>, requested: Option<nat>, config: C, version: nat, before: C,
      saves: bool, failures: bool)
    requires CallStands(client, s, pid, requested, config, version, before, saves, failures)
    requires Next(client, s, pid, a).Some? && Next(client, s, pid, a).value.1.None?
    ensures CallStands(client, Next(client, s, pid, a).value.0, pid, requested, config, version, before,
              saves || a == Save(true), failures || a == Save(false))
  {
  }

  /** Which outcome a call has, by the version it found, its save, and whether its caller went away. */
  predicate OutcomeFollows<C(==)>(
      client: Client, o: Outcome<C>, requested: Option<nat>, config: C, version: nat, saved: bool, failed: bool,
      cancelled: bool)
  {
    && (o == Written(requested, config, version + 1) || o == Conflict(requested) || o == SaveFailed(requested)
        || o == Abandoned(requested))
    && (o.Conflict? <==> !Allowed(requested, version))
    && (o.Abandoned? <==> cancelled)
    && (client == ThoughtConfig ==> (o.Written? <==> saved) && (o.SaveFailed? <==> failed))
    && (client == Selection ==> !o.SaveFailed? && !o.Abandoned?)
  }

  predicate StateIs<C(==)>(s: State<C>, version: nat, config: C) {
    s.version == version && s.config == config
  }

  lemma CallEnds<C>(
      client: Client, s: State<C>, pid: nat, a: Action<C>, requested: Option<nat>, config: C, version: nat, before: C,
      saves: bool, failures: bool)
    requires CallStands(client, s, pid, requested, config, version, before, saves, failures)
    requires Next(client, s, pid, a).Some? && Next(client, s, pid, a).value.1.Some?
    ensures var (s', o) := Next(client, s, pid, a).value;
      && OutcomeFollows(client, o.value, requested, config, version, saves, failures, a == Cancel)
      && (o.value.Written? ==> StateIs(s', version + 1, config))
      && (!o.value.Written? ==> StateIs(s', version, before) && !s.Of(pid).HalfStored? && !s.Of(pid).Stored?)
  {
  }

  /** While `pid` holds the lock, the next step is its own. */
  lemma OwnStep<C(!new)>(
      client: Client, version: nat, first: C, schedule: seq<(nat, Action<C>)>, trace: Trace<C>, pid: nat, k: nat)
    requires version <= U64_MAX && IsTrace(client, version, first, schedule, trace) && k < |schedule|
    requires trace.states[k].writer == Some(pid)
    ensures schedule[k].0 == pid
  {
    var r := TraceRepresents(client, version, first, schedule, trace, k);
    assert IsStep(client, schedule, trace, k);
    OnlyTheWriterSteps(client, trace.states[k], r, schedule[k].0, schedule[k].1);
  }

  lemma TakesOneMore<C>(schedule: seq<(nat, Action<C>)>, pid: nat, i: nat, k: nat, a: Action<C>)
    requires i < k < |schedule| && schedule[k].0 == pid
    ensures Takes(schedule, pid, i, k + 1, a) <==> Takes(schedule, pid, i, k, a) || schedule[k].1 == a
  {
    if schedule[k].1 == a {
      assert schedule[k] == (pid, a);
    }
  }

  /** Where the call that began with step `i` stands before step `k`, as its own steps so far say. */
  predicate StandsAt<C(==)>(
      client: Client, schedule: seq<(nat, Action<C>)>, trace: Trace<C>, pid: nat, requested: Option<nat>, config: C,
      i: nat, k: nat)
    requires i < k < |trace.states|
  {
    CallStands(client, trace.states[k], pid, requested, config, trace.states[i].version, trace.states[i].config,
      Takes(schedule, pid, i, k, Save(true)), Takes(schedule, pid, i, k, Save(false)))
  }

  lemma CallGoesOn<C(!new)>(
      client: Client, version: nat, first: C, schedule: seq<(nat, Action<C>)>, trace: Trace<C>, pid: nat,
      requested: Option<nat>, config: C, i: nat, k: nat)
    requires IsTrace(client, version, first, schedule, trace) && i < k < |schedule|
    requires StandsAt(client, schedule, trace, pid, requested, config, i, k)
    requires schedule[k].0 == pid && trace.outcomes[k].None?
    ensures StandsAt(client, schedule, trace, pid, requested, config, i, k + 1)
  {
    assert IsStep(client, schedule, trace, k);
    CallStepStands(client, trace.states[k], pid, schedule[k].1, requested, config,
      trace.states[i].version, trace.states[i].config,
      Takes(schedule, pid, i, k, Save(true)), Takes(schedule, pid, i, k, Save(false)));
    TakesOneMore(schedule, pid, i, k, Save(true));
    TakesOneMore(schedule, pid, i, k, Save(false));
  }

  lemma {:induction false} CallUpTo<C(!new)>(
      client: Client, version: nat, first: C, schedule: seq<(nat, Action<C>)>, trace: Trace<C>, pid: nat,
      requested: Option<nat>, config: C, i: nat, j: nat, k: nat)
    requires version <= U64_MAX && IsTrace(client, version, first, schedule, trace)
    requires IsWriteCall(schedule, trace, pid, requested, config, i, j) && i < k <= j
    ensures StandsAt(client, schedule, trace, pid, requested, config, i, k)
    ensures forall m :: i <= m < k ==> schedule[m].0 == pid
  {
    if k == i + 1 {
      assert IsStep(client, schedule, trace, i);
      var r := TraceRepresents(client, version, first, schedule, trace, i);
    } else {
      CallUpTo(client, version, first, schedule, trace, pid, requested, config, i, j, k - 1);
      OwnStep(client, version, first, schedule, trace, pid, k - 1);
      CallGoesOn(client, version, first, schedule, trace, pid, requested, config, i, k - 1);
    }
  }

  /** Until the call stores something, version and config are those it found. */
  lemma {:induction false} NothingStoredYet<C(!new)>(
      client: Client, version: nat, first: C, schedule: seq<(nat, Action<C>)>, trace: Trace<C>, pid: nat,
      requested: Option<nat>, config: C, i: nat, j: nat, k: nat)
    requires version <= U64_MAX && IsTrace(client, version, first, schedule, trace)
    requires IsWriteCall(schedule, trace, pid, requested, config, i, j) && i < k <= j
    requires !trace.states[k].Of(pid).HalfStored? && !trace.states[k].Of(pid).Stored?
    ensures forall m :: i <= m <= k ==>
      StateIs(trace.states[m], trace.states[i].version, trace.states[i].config)
  {
    CallUpTo(client, version, first, schedule, trace, pid, requested, config, i, j, k);
    if k > i + 1 {
      CallUpTo(client, version, first, schedule, trace, pid, requested, config, i, j, k - 1);
      assert IsStep(client, schedule, trace, k - 1);
      NothingStoredYet(client, version, first, schedule, trace, pid, requested, config, i, j, k - 1);
    }
  }

  /**
   * In every run, a write call takes all steps from its lock to its outcome itself. It answers for its own request and
   * config; which outcome it has depends on the version it found and on its save, and what it leaves behind on the
   * outcome. Unless it writes, version and config stay as it found them all along.
   */
  lemma {:induction false} WriteCallMeaning<C(!new)>(
      client: Client, version: nat, first: C, schedule: seq<(nat, Action<C>)>, trace: Trace<C>, pid: nat,
      requested: Option<nat>, config: C, i: nat, j: nat)
    requires version <= U64_MAX && IsTrace(client, version, first, schedule, trace)
    requires IsWriteCall(schedule, trace, pid, requested, config, i, j)
    ensures forall k :: i <= k <= j ==> schedule[k].0 == pid
    ensures var found, o := trace.states[i], trace.outcomes[j].value;
      && OutcomeFollows(client, o, requested, config, found.version, Takes(schedule, pid, i, j, Save(true)),
           Takes(schedule, pid, i, j, Save(false)), schedule[j].1 == Cancel)
      && if o.Written? then StateIs(trace.states[j + 1], found.version + 1, config)
         else forall k :: i <= k <= j + 1 ==> StateIs(trace.states[k], found.version, found.config)
  {
    var found := trace.states[i];
    CallUpTo(client, version, first, schedule, trace, pid, requested, config, i, j, j);
    assert IsStep(client, schedule, trace, j);
    CallEnds(client, trace.states[j], pid, schedule[j].1, requested, config, found.version, found.config,
      Takes(schedule, pid, i, j, Save(true)), Takes(schedule, pid, i, j, Save(false)));
    if !trace.outcomes[j].value.Written? {
      NothingStoredYet(client, version, first, schedule, trace, pid, requested, config, i, j, j);
    }
  }

  // ----- every call can be completed

  /** The outcome of a call that runs to its end: by the version check, and for the runtime config by the save. */
  function CallOutcome<C>(client: Client, version: nat, requested: Option<nat>, config: C, saved: bool): Outcome<C> {
    if !Allowed(requested, version) then Conflict(requested)
    else if client == ThoughtConfig && !saved then SaveFailed(requested)
    else Written(requested, config, version + 1)
  }

  function Recorded<C>(history: seq<Outcome<C>>, o: Option<Outcome<C>>): seq<Outcome<C>> {
    if o.None? then history else history + [o.value]
  }

  lemma LastStep<C>(client: Client, s: State<C>, schedule: seq<(nat, Action<C>)>, pid: nat, a: Action<C>)
    requires Run(client, s, schedule).Some?
    ensures var (s', history) := Run(client, s, schedule).value;
      var run := Run(client, s, schedule + [(pid, a)]);
      match Next(client, s', pid, a)
      case None => run.None?
      case Some(step) => run == Some((step.0, Recorded(history, step.1)))
  {
    assert (schedule + [(pid, a)])[..|schedule|] == schedule;
  }

  function NextStep<C>(client: Client, p: Process<C>, saved: bool): Action<C> {
    match p
    case Locked(_, _) => CheckVersion
    case Reserved(_, _, _) => if client == ThoughtConfig then Save(saved) else StoreFirst
    case Saved(_, _, _) => StoreFirst
    case HalfStored(_, _, _) => StoreSecond
    case _ => ReleaseWrite
  }

  function StepsLeft<C>(p: Process<C>): nat {
    match p
    case Locked(_, _) => 5
    case Reserved(_, _, _) => 4
    case Saved(_, _, _) => 3
    case HalfStored(_, _, _) => 2
    case _ => 1
  }

  /** The call goes on with its next step, which does not end it or ends it as it should. */
  lemma CallAdvances<C(!new)>(
      client: Client, s: State<C>, pid: nat, requested: Option<nat>, config: C, version: nat, before: C, saves: bool,
      failures: bool, saved: bool)
    requires CallStands(client, s, pid, requested, config, version, before, saves, failures)
    requires (saves ==> saved) && (failures ==> !saved)
    ensures var a := NextStep(client, s.Of(pid), saved);
      var step := Next(client, s, pid, a);
      && step.Some?
      && match step.value.1
         case None =>
           && CallStands(client, step.value.0, pid, requested, config, version, before,
                saves || a == Save(true), failures || a == Save(false))
           && StepsLeft(step.value.0.Of(pid)) < StepsLeft(s.Of(pid))
           && (a == Save(true) ==> saved) && (a == Save(false) ==> !saved)
         case Some(o) =>
           && o == CallOutcome(client, version, requested, config, saved) && step.value.0.writer.None?
           && (if o.Written? then StateIs(step.value.0, version + 1, config)
               else StateIs(step.value.0, version, before))
  {
    var a := NextStep(client, s.Of(pid), saved);
    if Next(client, s, pid, a).value.1.Some? {
      CallEnds(client, s, pid, a, requested, config, version, before, saves, failures);
    } else {
      CallStepStands(client, s, pid, a, requested, config, version, before, saves, failures);
    }
  }

  /** Wherever a call stands in a run, it can go on to its outcome, whatever the save answers if it is still to come. */
  lemma {:induction false} CallCompletes<C(!new)>(
      client: Client, s0: State<C>, schedule: seq<(nat, Action<C>)>, pid: nat, requested: Option<nat>, config: C,
      version: nat, before: C, saves: bool, failures: bool, saved: bool)
    returns (longer: seq<(nat, Action<C>)>)
    requires Run(client, s0, schedule).Some? && (saves ==> saved) && (failures ==> !saved)
    requires CallStands(client, Run(client, s0, schedule).value.0, pid, requested, config, version, before, saves,
               failures)
    ensures schedule <= longer && forall k :: |schedule| <= k < |longer| ==> longer[k].0 == pid
    ensures var (run, o) := (Run(client, s0, longer), CallOutcome(client, version, requested, config, saved));
      && run.Some? && run.value.1 == Run(client, s0, schedule).value.1 + [o] && run.value.0.writer.None?
      && if o.Written? then StateIs(run.value.0, version + 1, config) else StateIs(run.value.0, version, before)
    decreases StepsLeft(Run(client, s0, schedule).value.0.Of(pid))
  {
    var s := Run(client, s0, schedule).value.0;
    var a := NextStep(client, s.Of(pid), saved);
    CallAdvances(client, s, pid, requested, config, version, before, saves, failures, saved);
    LastStep(client, s0, schedule, pid, a);
    longer := schedule + [(pid, a)];
    if Next(client, s, pid, a).value.1.None? {
      longer := CallCompletes(client, s0, longer, pid, requested, config, version, before,
        saves || a == Save(true), failures || a == Save(false), saved);
    }
  }

  /** In every run, whenever the lock is free a new call gets it and comes to its outcome. */
  lemma {:induction false} FreeLockServesCall<C(!new)>(
      client: Client, version: nat, first: C, schedule: seq<(nat, Action<C>)>, pid: nat, requested: Option<nat>,
      config: C, saved: bool)
    returns (longer: seq<(nat, Action<C>)>)
    requires version <= U64_MAX && Run(client, Start(version, first), schedule).Some?
    requires var s := Run(client, Start(version, first), schedule).value.0; s.writer.None? && s.readers == {}
    ensures schedule <= longer && forall k :: |schedule| <= k < |longer| ==> longer[k].0 == pid
    ensures var (s, history) := Run(client, Start(version, first), schedule).value;
      var (run, o) := (Run(client, Start(version, first), longer),
        CallOutcome(client, s.version, requested, config, saved));
      && run.Some? && run.value.1 == history + [o] && run.value.0.writer.None?
      && if o.Written? then StateIs(run.value.0, s.version + 1, config)
         else StateIs(run.value.0, s.version, s.config)
  {
    var s0 := Start(version, first);
    var s := Run(client, s0, schedule).value.0;
    EveryScheduleIsAtomic(client, version, first, schedule);
    LastStep(client, s0, schedule, pid, AcquireWrite(requested, config));
    longer := schedule + [(pid, AcquireWrite(requested, config))];
    longer := CallCompletes(client, s0, longer, pid, requested, config, s.version, s.config, false, false, saved);
  }

  function NextRead<C>(client: Client, p: Process<C>): Action<C> {
    match p
    case Resting => AcquireRead
    case Reading => if client == ThoughtConfig then LoadVersion else CloneConfig
    case ReadVersion(_) => CloneConfig
    case _ => ReleaseRead
  }

  function ReadsLeft<C>(p: Process<C>): nat {
    match p
    case Resting => 4
    case Reading => 3
    case ReadVersion(_) => 2
    case _ => 1
  }

  /** What a reader has taken so far is what the state shows. */
  predicate ReadStands<C(==)>(client: Client, s: State<C>, pid: nat) {
    s.writer.None? &&
    match s.Of(pid)
    case Resting => true
    case Reading => true
    case ReadVersion(v) => client == ThoughtConfig && v == s.version
    case ReadBoth(v, c) => client == ThoughtConfig && v == s.version && c == s.config
    case ReadConfig(c) => client == Selection && c == s.config
    case _ => false
  }

  lemma ReadAdvances<C>(client: Client, s: State<C>, pid: nat)
    requires ReadStands(client, s, pid)
    ensures var step := Next(client, s, pid, NextRead(client, s.Of(pid)));
      && step.Some? && StateIs(step.value.0, s.version, s.config) && ReadStands(client, step.value.0, pid)
      && match step.value.1
         case None => ReadsLeft(step.value.0.Of(pid)) < ReadsLeft(s.Of(pid))
         case Some(o) => o == if client == ThoughtConfig then Seen(s.config, s.version) else SeenConfig(s.config)
  {
  }

  /** In every run, a reader that has no writer before it comes to what the state shows, and changes nothing. */
  lemma {:induction false} FreeLockServesReader<C(!new)>(
      client: Client, s0: State<C>, schedule: seq<(nat, Action<C>)>, pid: nat)
    returns (longer: seq<(nat, Action<C>)>)
    requires Run(client, s0, schedule).Some? && ReadStands(client, Run(client, s0, schedule).value.0, pid)
    ensures schedule <= longer && forall k :: |schedule| <= k < |longer| ==> longer[k].0 == pid
    ensures var (s, history) := Run(client, s0, schedule).value;
      var run := Run(client, s0, longer);
      && run.Some? && run.value.0.writer.None? && StateIs(run.value.0, s.version, s.config)
      && run.value.1 == history + [if client == ThoughtConfig then Seen(s.config, s.version) else SeenConfig(s.config)]
    decreases ReadsLeft(Run(client, s0, schedule).value.0.Of(pid))
  {
    var s := Run(client, s0, schedule).value.0;
    var a := NextRead(client, s.Of(pid));
    ReadAdvances(client, s, pid);
    LastStep(client, s0, schedule, pid, a);
    longer := schedule + [(pid, a)];
    if Next(client, s, pid, a).value.1.None? {
      longer := FreeLockServesReader(client, s0, longer, pid);
    }
  }
}
