/** Runs of callers and executors, read as logs: what a status read shows at any moment of any interleaving. */
module RepoRuns {
  import opened Wrappers
  import opened RepoActions

  // ----- the log of a run

  /** How much the clock has advanced before step `n`. */
  function ClockAt(start: nat, schedule: seq<Action>, n: nat): nat
    requires n <= |schedule|
  {
    if n == 0 then start
    else ClockAt(start, schedule, n - 1) + if schedule[n - 1].Tick? then schedule[n - 1].ticks else 0
  }

  /** What job `id` was told before step `n`: its repository and kind by its start, its result by its end. */
  datatype Told = Told(key: string, kind: string, result: Option<ExecutionResult>)

  function ToldAt(schedule: seq<Action>, id: nat, n: nat): Option<Told>
    requires n <= |schedule|
  {
    if n == 0 then None
    else
      var before := ToldAt(schedule, id, n - 1);
      match schedule[n - 1]
      case CallStart(i, key, kind) => if i == id then Some(Told(key, kind, None)) else before
      case End(i, result) => if i == id && before.Some? then Some(before.value.(result := Some(result))) else before
      case _ => before
  }

  /** The tracker call that a step makes, at its time; ticks, spawns and ends make none. */
  function CallOf(start: nat, schedule: seq<Action>, n: nat): Option<Timed>
    requires n < |schedule|
  {
    match schedule[n]
    case CallStart(_, key, kind) => Some(Timed(ClockAt(start, schedule, n), Start(key, kind), true))
    case CallFinish(id) =>
      (match ToldAt(schedule, id, n)
       case Some(Told(key, kind, Some(result))) =>
         Some(Timed(ClockAt(start, schedule, n), Finish(key, kind, result), true))
       case _ => None)
    case CallQuery(key) => Some(Timed(ClockAt(start, schedule, n), Query(key), false))
    case _ => None
  }

  function LogOf(start: nat, schedule: seq<Action>, n: nat): seq<Timed>
    requires n <= |schedule|
  {
    if n == 0 then []
    else
      match CallOf(start, schedule, n - 1)
      case None => LogOf(start, schedule, n - 1)
      case Some(call) => LogOf(start, schedule, n - 1) + [call]
  }

  lemma {:induction false} LogIsClocked(start: nat, schedule: seq<Action>, n: nat)
    requires n <= |schedule|
    ensures Clocked(LogOf(start, schedule, n))
    ensures forall i :: 0 <= i < |LogOf(start, schedule, n)| ==>
      LogOf(start, schedule, n)[i].time <= ClockAt(start, schedule, n)
  {
    if n > 0 {
      LogIsClocked(start, schedule, n - 1);
    }
  }

  // ----- the run follows its log

  function AfterCalls(log: seq<Timed>, n: nat): Registry
    requires n <= |log|
  {
    if n == 0 then map[] else Apply(AfterCalls(log, n - 1), log[n - 1])
  }

  lemma {:induction false} AfterCallsOfPrefix(log: seq<Timed>, longer: seq<Timed>, n: nat)
    requires n <= |log| && log <= longer
    ensures AfterCalls(log, n) == AfterCalls(longer, n)
  {
    if n > 0 {
      AfterCallsOfPrefix(log, longer, n - 1);
    }
  }

  /** A job in flight is what it was told. */
  ghost predicate JobsAreTold(s: System, schedule: seq<Action>, n: nat)
    requires n <= |schedule|
  {
    forall id :: id in s.jobs ==>
      var job := s.jobs[id];
      && ToldAt(schedule, id, n).Some?
      && ToldAt(schedule, id, n).value.key == job.key && ToldAt(schedule, id, n).value.kind == job.kind
      && (job.phase.Ended? ==> ToldAt(schedule, id, n).value.result == Some(job.phase.result))
  }

  ghost predicate FollowsLog(start: nat, s: System, schedule: seq<Action>, n: nat)
    requires n <= |schedule|
  {
    var log := LogOf(start, schedule, n);
    && s.now == ClockAt(start, schedule, n)
    && s.registry == AfterCalls(log, |log|)
    && JobsAreTold(s, schedule, n)
  }

  lemma StepKeepsJobsTold(s: System, schedule: seq<Action>, n: nat)
    requires n < |schedule| && JobsAreTold(s, schedule, n) && Next(s, schedule[n]).Some?
    ensures JobsAreTold(Next(s, schedule[n]).value, schedule, n + 1)
  {
  }

  lemma StepFollowsLog(start: nat, s: System, schedule: seq<Action>, n: nat)
    requires n < |schedule| && FollowsLog(start, s, schedule, n) && Next(s, schedule[n]).Some?
    ensures FollowsLog(start, Next(s, schedule[n]).value, schedule, n + 1)
  {
    StepKeepsJobsTold(s, schedule, n);
    var log := LogOf(start, schedule, n);
    var call := CallOf(start, schedule, n);
    if call.Some? {
      var longer := log + [call.value];
      AfterCallsOfPrefix(log, longer, |log|);
    }
  }

  lemma {:induction false} RunFollowsLog(start: nat, s: System, schedule: seq<Action>, n: nat)
    requires n <= |schedule| && FollowsLog(start, s, schedule, n) && Run(s, schedule[n..]).Some?
    ensures FollowsLog(start, Run(s, schedule[n..]).value, schedule, |schedule|)
    decreases |schedule| - n
  {
    if n < |schedule| {
      StepFollowsLog(start, s, schedule, n);
      assert schedule[n..][1..] == schedule[n + 1..];
      RunFollowsLog(start, Next(s, schedule[n]).value, schedule, n + 1);
    }
  }

  lemma {:induction false} CallsReflect(log: seq<Timed>, n: nat, now: nat)
    requires n <= |log| && Clocked(log) && (forall i :: 0 <= i < n ==> log[i].time <= now)
    ensures Reflects(AfterCalls(log, n), log, n, now)
  {
    if n > 0 {
      var before, t := AfterCalls(log, n - 1), log[n - 1];
      CallsReflect(log, n - 1, t.time);
      ApplyReflects(before, log, n - 1);
      var after := AfterCalls(log, n);
      forall key ensures EntryReflects(after, log, n, now, key) {
        assert EntryReflects(after, log, n, t.time, key);
      }
    } else {
      var none: Registry := map[];
      assert AfterCalls(log, 0) == none;
      forall key ensures EntryReflects(none, log, 0, now, key) {
      }
    }
  }

  /**
   * After every interleaving, a status read shows what the last accepted start or finish of the repository left: a
   * running action, or for 15 s the result its own executor ended with.
   */
  lemma {:induction false} StatusMeaning(start: nat, schedule: seq<Action>, key: string)
    requires Run(Initial(start), schedule).Some?
    ensures var s, log := Run(Initial(start), schedule).value, LogOf(start, schedule, |schedule|);
      && s.now == ClockAt(start, schedule, |schedule|)
      && Lookup(Prune(s.registry, s.now), key) == ShownAt(log, key, |log|, s.now)
      && (StartAccepted(s, key) <==> var k := LastTouch(log, key, |log|); !(k.Some? && log[k.value].op.Start?))
  {
    assert schedule[0..] == schedule;
    RunFollowsLog(start, Initial(start), schedule, 0);
    var s, log := Run(Initial(start), schedule).value, LogOf(start, schedule, |schedule|);
    LogIsClocked(start, schedule, |schedule|);
    CallsReflect(log, |log|, s.now);
    ReplyReflects(s.registry, log, |log|, s.now, key);
  }
}
