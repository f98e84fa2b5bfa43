/** The registry of background repository actions: one running action per repository, results kept for a while. */
module RepoActions {
  import opened Wrappers

  /** How long a finished action is reported, in the clock's ticks (15 s of nanoseconds). */
  const STATUS_TTL: nat := 15_000_000_000

  datatype ActionState = Running | Succeeded | Failed
  datatype Status = Status(kind: string, state: ActionState, detail: Option<string>)
  datatype Record = Record(status: Status, finishedAt: Option<nat>)
  type Registry = map<string, Record>

  datatype ExecutionResult = Completed(detail: Option<string>) | Errored(message: string) | Panicked(message: string)

  /** `Instant::elapsed`, which saturates at zero. */
  function Elapsed(now: nat, since: nat): nat {
    if now < since then 0 else now - since
  }

  predicate IsRunning(m: Registry, key: string) {
    key in m && m[key].status.state == Running
  }

  predicate Keeps(record: Record, now: nat) {
    record.status.state == Running || (record.finishedAt.Some? && Elapsed(now, record.finishedAt.value) < STATUS_TTL)
  }

  function Prune(m: Registry, now: nat): Registry {
    map key | key in m && Keeps(m[key], now) :: m[key]
  }

  function Lookup(m: Registry, key: string): Option<Status> {
    if key in m then Some(m[key].status) else None
  }

  function StatusOf(kind: string, result: ExecutionResult): Status {
    match result
    case Completed(detail) => Status(kind, Succeeded, detail)
    case Errored(message) => Status(kind, Failed, Some(message))
    case Panicked(message) => Status(kind, Failed, Some("repo action task failed: " + message))
  }

  // ----- the shared map, changed in place under its write lock

  class RepoActionTracker {
    var inner: Registry

    constructor ()
      ensures inner == map[]
    {
      inner := map[];
    }

    /** `HashMap::retain`. */
    method PruneLocked(now: nat)
      modifies this
      ensures inner == Prune(old(inner), now)
    {
      var left := inner.Keys;
      var kept := inner;
      while left != {}
        invariant left <= inner.Keys && inner == old(inner)
        invariant forall key :: key in kept <==> key in inner && (key in left || Keeps(inner[key], now))
        invariant forall key :: key in kept ==> kept[key] == inner[key]
        decreases left
      {
        var key :| key in left;
        if !Keeps(kept[key], now) {
          kept := kept - {key};
        }
        left := left - {key};
      }
      inner := kept;
    }

    /** Refuses exactly when the repository has a running action; otherwise its record becomes a running one. */
    method ReserveRunningAction(key: string, kind: string, now: nat) returns (ok: bool)
      modifies this
      ensures ok <==> !IsRunning(old(inner), key)
      ensures inner ==
        if ok then Prune(old(inner), now)[key := Record(Status(kind, Running, None), None)] else Prune(old(inner), now)
      ensures inner == Apply(old(inner), Timed(now, Start(key, kind), true))
      ensures ReplyTo(old(inner), Timed(now, Start(key, kind), true)) == Some(Accepted(ok))
    {
      PruneLocked(now);
      ok := !(key in inner && inner[key].status.state == Running);
      if ok {
        inner := inner[key := Record(Status(kind, Running, None), None)];
      }
    }

    /** The result of the action replaces its running record and survives the prune that follows. */
    method Finish(key: string, kind: string, result: ExecutionResult, now: nat)
      modifies this
      ensures inner == Prune(old(inner), now)[key := Record(StatusOf(kind, result), Some(now))]
      ensures inner == Apply(old(inner), Timed(now, Operation.Finish(key, kind, result), true))
    {
      inner := inner[key := Record(StatusOf(kind, result), Some(now))];
      PruneLocked(now);
    }

    /** Reads without pruning: an expired record is passed over here and reclaimed by the next writer. */
    method StatusFor(key: string, now: nat) returns (status: Option<Status>)
      ensures status == Lookup(Prune(inner, now), key)
      ensures ReplyTo(inner, Timed(now, Query(key), false)) == Some(Reported(status))
    {
      if key !in inner {
        return None;
      }
      var record := inner[key];
      if record.status.state == Running {
        return Some(record.status);
      }
      if record.finishedAt.Some? && Elapsed(now, record.finishedAt.value) < STATUS_TTL {
        return Some(record.status);
      }
      return None;
    }
  }

  // ----- when the registry is pruned cannot be observed

  datatype Operation =
    | Start(key: string, kind: string)
    | Finish(key: string, kind: string, result: ExecutionResult)
    | Query(key: string)
    | PruneNow

  datatype Reply = Accepted(ok: bool) | Reported(status: Option<Status>)

  /** `prunes`: whether the operation prunes on its way, as the source's starts and finishes do. */
  datatype Timed = Timed(time: nat, op: Operation, prunes: bool)

  predicate Clocked(log: seq<Timed>) {
    forall i, j :: 0 <= i < j < |log| ==> log[i].time <= log[j].time
  }

  function Apply(m: Registry, t: Timed): Registry {
    var kept := if t.prunes then Prune(m, t.time) else m;
    match t.op
    case Start(key, kind) =>
      if IsRunning(m, key) then kept else kept[key := Record(Status(kind, Running, None), None)]
    case Finish(key, kind, result) => kept[key := Record(StatusOf(kind, result), Some(t.time))]
    case Query(_) => kept
    case PruneNow => Prune(m, t.time)
  }

  /** What the caller is told; finishes and prunes tell nothing. */
  function ReplyTo(m: Registry, t: Timed): Option<Reply> {
    match t.op
    case Start(key, _) => Some(Accepted(!IsRunning(m, key)))
    case Query(key) => Some(Reported(Lookup(Prune(m, t.time), key)))
    case Finish(_, _, _) => None
    case PruneNow => None
  }

  function Replies(m: Registry, log: seq<Timed>): seq<Reply>
    decreases |log|
  {
    if log == [] then []
    else
      var rest := Replies(Apply(m, log[0]), log[1..]);
      match ReplyTo(m, log[0]) case None => rest case Some(reply) => [reply] + rest
  }

  /** The same calls at the same times, and nobody ever prunes. */
  function WithoutPrunes(log: seq<Timed>): seq<Timed> {
    if log == [] then []
    else if log[0].op.PruneNow? then WithoutPrunes(log[1..])
    else [log[0].(prunes := false)] + WithoutPrunes(log[1..])
  }

  /** What a later prune keeps, an earlier one kept too. */
  lemma PruneAbsorbs(m: Registry, early: nat, late: nat)
    requires early <= late
    ensures Prune(Prune(m, early), late) == Prune(m, late)
  {
  }

  lemma StoreKeepsAgreement(a: Registry, b: Registry, now: nat, key: string, record: Record)
    requires Prune(a, now) == Prune(b, now)
    ensures Prune(a[key := record], now) == Prune(b[key := record], now)
  {
    var pa, pb := Prune(a[key := record], now), Prune(b[key := record], now);
    forall k ensures k in pa <==> k in pb {
      assert k in Prune(a, now) <==> k in Prune(b, now);
    }
    forall k | k in pa ensures pa[k] == pb[k] {
      if k != key {
        assert Prune(a, now)[k] == Prune(b, now)[k];
      }
    }
  }

  /** Registries that agree once pruned take an operation, pruning or not, to registries that agree once pruned. */
  lemma AgreementIsKept(a: Registry, b: Registry, t: Timed, lazy: Timed, now: nat)
    requires now <= t.time && Prune(a, now) == Prune(b, now) && lazy == t.(prunes := false)
    ensures Prune(a, t.time) == Prune(b, t.time)
    ensures forall key :: IsRunning(a, key) <==> IsRunning(b, key)
    ensures Prune(Apply(a, t), t.time) == Prune(Apply(b, lazy), t.time)
    ensures t.op.PruneNow? ==> Prune(Apply(a, t), t.time) == Prune(a, t.time)
  {
    PruneAbsorbs(a, now, t.time);
    PruneAbsorbs(b, now, t.time);
    forall key ensures IsRunning(a, key) <==> IsRunning(b, key) {
      assert IsRunning(a, key) <==> IsRunning(Prune(a, now), key);
      assert IsRunning(b, key) <==> IsRunning(Prune(b, now), key);
    }
    PruneAbsorbs(a, t.time, t.time);
    var kept := if t.prunes then Prune(a, t.time) else a;
    match t.op
    case Start(key, kind) => StoreKeepsAgreement(kept, b, t.time, key, Record(Status(kind, Running, None), None));
    case Finish(key, kind, result) =>
      StoreKeepsAgreement(kept, b, t.time, key, Record(StatusOf(kind, result), Some(t.time)));
    case _ =>
  }

  /** A registry that is pruned here and there answers like one that never is. */
  lemma {:induction false} RepliesIgnorePrunes(a: Registry, b: Registry, log: seq<Timed>, now: nat)
    requires Prune(a, now) == Prune(b, now) && Clocked(log) && (log != [] ==> now <= log[0].time)
    ensures Replies(a, log) == Replies(b, WithoutPrunes(log))
    decreases |log|
  {
    if log != [] {
      var t := log[0];
      var lazy := t.(prunes := false);
      AgreementIsKept(a, b, t, lazy, now);
      if t.op.PruneNow? {
        RepliesIgnorePrunes(Apply(a, t), b, log[1..], t.time);
      } else {
        RepliesIgnorePrunes(Apply(a, t), Apply(b, lazy), log[1..], t.time);
        assert ([lazy] + WithoutPrunes(log[1..]))[1..] == WithoutPrunes(log[1..]);
      }
    }
  }

  /**
   * Logs of the same calls give the same replies, whichever of the calls prune and whatever prunes come in between.
   * Among them are the source's own log, where every start and finish prunes, and the one where nothing ever does.
   */
  lemma PruningIsUnobservable(a: seq<Timed>, b: seq<Timed>)
    requires Clocked(a) && Clocked(b) && WithoutPrunes(a) == WithoutPrunes(b)
    ensures Replies(map[], a) == Replies(map[], b)
  {
    RepliesIgnorePrunes(map[], map[], a, 0);
    RepliesIgnorePrunes(map[], map[], b, 0);
  }

  // ----- what a log of calls is told

  /** The last of the first `n` calls that is a finish of `key`, or a start of it that no start before it blocks. */
  function LastTouch(log: seq<Timed>, key: string, n: nat): Option<nat>
    requires n <= |log|
    ensures var k := LastTouch(log, key, n);
      k.Some? ==> k.value < n && ((log[k.value].op.Start? || log[k.value].op.Finish?) && log[k.value].op.key == key)
  {
    if n == 0 then None
    else
      var before := LastTouch(log, key, n - 1);
      match log[n - 1].op
      case Finish(k, _, _) => if k == key then Some(n - 1) else before
      case Start(k, _) => if k == key && !(before.Some? && log[before.value].op.Start?) then Some(n - 1) else before
      case _ => before
  }

  /** An accepted start shows as running, a result for fifteen seconds, and after that nothing. */
  function ShownAt(log: seq<Timed>, key: string, n: nat, now: nat): Option<Status>
    requires n <= |log|
  {
    var k := LastTouch(log, key, n);
    if k.None? then None
    else
      match log[k.value].op
      case Start(_, kind) => Some(Status(kind, Running, None))
      case Finish(_, kind, result) =>
        if now - log[k.value].time >= 15_000_000_000 then None
        else if result.Completed? then Some(Status(kind, Succeeded, result.detail))
        else if result.Errored? then Some(Status(kind, Failed, Some(result.message)))
        else Some(Status(kind, Failed, Some("repo action task failed: " + result.message)))
      case _ => None
  }

  /** The replies to the calls from `n` on, by the last touches alone. */
  function Told(log: seq<Timed>, n: nat): seq<Reply>
    requires n <= |log|
    decreases |log| - n
  {
    if n == |log| then []
    else
      match log[n].op
      case Start(key, _) =>
        var k := LastTouch(log, key, n);
        [Accepted(!(k.Some? && log[k.value].op.Start?))] + Told(log, n + 1)
      case Query(key) => [Reported(ShownAt(log, key, n, log[n].time))] + Told(log, n + 1)
      case _ => Told(log, n + 1)
  }

  /** Call `k`, a start or a finish, leaves this record. */
  predicate IsLeftBy(record: Record, t: Timed) {
    match t.op
    case Start(_, kind) => record == Record(Status(kind, Running, None), None)
    case Finish(_, kind, result) => record == Record(StatusOf(kind, result), Some(t.time))
    case _ => false
  }

  /** The record of a key is what its last touch left; it is missing only where there was none or it has expired. */
  predicate EntryReflects(m: Registry, log: seq<Timed>, n: nat, now: nat, key: string)
    requires n <= |log|
  {
    match LastTouch(log, key, n)
    case None => key !in m
    case Some(k) =>
      if key in m then IsLeftBy(m[key], log[k]) && log[k].time <= now
      else log[k].op.Finish? && now - log[k].time >= STATUS_TTL
  }

  ghost predicate Reflects(m: Registry, log: seq<Timed>, n: nat, now: nat)
    requires n <= |log|
  {
    forall key :: EntryReflects(m, log, n, now, key)
  }

  lemma PruneReflects(m: Registry, log: seq<Timed>, n: nat, now: nat)
    requires n <= |log| && Reflects(m, log, n, now)
    ensures Reflects(Prune(m, now), log, n, now)
  {
    forall key ensures EntryReflects(Prune(m, now), log, n, now, key) {
      assert EntryReflects(m, log, n, now, key);
    }
  }

  lemma ApplyReflects(m: Registry, log: seq<Timed>, n: nat)
    requires n < |log| && Reflects(m, log, n, log[n].time)
    ensures Reflects(Apply(m, log[n]), log, n + 1, log[n].time)
  {
    var t, after, next := log[n], Apply(m, log[n]), n + 1;
    PruneReflects(m, log, n, t.time);
    forall key ensures EntryReflects(after, log, next, t.time, key) {
      assert EntryReflects(m, log, n, t.time, key) && EntryReflects(Prune(m, t.time), log, n, t.time, key);
    }
  }

  lemma ReplyReflects(m: Registry, log: seq<Timed>, n: nat, now: nat, key: string)
    requires n <= |log| && Reflects(m, log, n, now)
    ensures IsRunning(m, key) <==> var k := LastTouch(log, key, n); k.Some? && log[k.value].op.Start?
    ensures Lookup(Prune(m, now), key) == ShownAt(log, key, n, now)
  {
    assert EntryReflects(m, log, n, now, key);
  }

  lemma {:induction false} RepliesAreTold(m: Registry, log: seq<Timed>, n: nat, now: nat)
    requires n <= |log| && Clocked(log) && Reflects(m, log, n, now) && (n < |log| ==> now <= log[n].time)
    ensures Replies(m, log[n..]) == Told(log, n)
    decreases |log| - n
  {
    if n < |log| {
      var t := log[n];
      forall key ensures EntryReflects(m, log, n, t.time, key) {
        assert EntryReflects(m, log, n, now, key);
      }
      match t.op {
        case Start(key, _) => ReplyReflects(m, log, n, t.time, key);
        case Query(key) => ReplyReflects(m, log, n, t.time, key);
        case _ =>
      }
      ApplyReflects(m, log, n);
      RepliesAreTold(Apply(m, t), log, n + 1, t.time);
      assert log[n..][1..] == log[n + 1..];
    }
  }

  /**
   * On a nondecreasing clock the last touch of a repository decides every reply about it: a start is refused exactly
   * after an accepted start, and a status read shows a running action, or a result that is younger than 15 s.
   */
  lemma RepliesMeaning(log: seq<Timed>)
    requires Clocked(log)
    ensures Replies(map[], log) == Told(log, 0)
  {
    assert log[0..] == log;
    if log == [] {
      RepliesAreTold(map[], log, 0, 0);
    } else {
      RepliesAreTold(map[], log, 0, log[0].time);
    }
  }

  // ----- callers and executors, interleaved

  datatype Phase = Reserved | Executing | Ended(result: ExecutionResult)
  datatype Job = Job(key: string, kind: string, phase: Phase)
  datatype System = System(registry: Registry, now: nat, jobs: map<nat, Job>)

  datatype Action =
    | Tick(ticks: nat)
    | CallStart(id: nat, key: string, kind: string)
    | Spawn(id: nat)
    | End(id: nat, result: ExecutionResult)
    | CallFinish(id: nat)
    | CallQuery(key: string)

  /** One step; `None` when it is not enabled. A refused start leaves no job behind. */
  function Next(s: System, a: Action): Option<System> {
    match a
    case Tick(ticks) => Some(s.(now := s.now + ticks))
    case CallStart(id, key, kind) =>
      if id in s.jobs then None
      else
        var registry := Apply(s.registry, Timed(s.now, Start(key, kind), true));
        Some(if IsRunning(s.registry, key) then s.(registry := registry)
             else s.(registry := registry, jobs := s.jobs[id := Job(key, kind, Reserved)]))
    case Spawn(id) =>
      if id in s.jobs && s.jobs[id].phase == Reserved
      then Some(s.(jobs := s.jobs[id := s.jobs[id].(phase := Executing)]))
      else None
    case End(id, result) =>
      if id in s.jobs && s.jobs[id].phase == Executing
      then Some(s.(jobs := s.jobs[id := s.jobs[id].(phase := Ended(result))]))
      else None
    case CallFinish(id) =>
      if id in s.jobs && s.jobs[id].phase.Ended?
      then Some(s.(registry :=
        Apply(s.registry, Timed(s.now, Finish(s.jobs[id].key, s.jobs[id].kind, s.jobs[id].phase.result), true)),
                   jobs := s.jobs - {id}))
      else None
    case CallQuery(key) => Some(s.(registry := Apply(s.registry, Timed(s.now, Query(key), false))))
  }

  function Run(s: System, schedule: seq<Action>): Option<System>
    decreases |schedule|
  {
    if schedule == [] then Some(s)
    else match Next(s, schedule[0]) case None => None case Some(next) => Run(next, schedule[1..])
  }

  ghost predicate OneJobPerRunningKey(s: System) {
    && (forall id :: id in s.jobs ==> IsRunning(s.registry, s.jobs[id].key))
    && (forall key :: IsRunning(s.registry, key) ==> exists id :: id in s.jobs && s.jobs[id].key == key)
    && (forall i, j :: i in s.jobs && j in s.jobs && s.jobs[i].key == s.jobs[j].key ==> i == j)
  }

  lemma PruneKeepsRunning(m: Registry, now: nat)
    ensures forall key :: IsRunning(Prune(m, now), key) <==> IsRunning(m, key)
  {
  }

  /** Which keys run after a step: a start adds its key, a finish removes its job's key, nothing else matters. */
  lemma RunningAfterStep(s: System, a: Action)
    requires Next(s, a).Some?
    ensures forall key :: IsRunning(Next(s, a).value.registry, key) <==>
      match a
      case CallStart(_, started, _) => IsRunning(s.registry, key) || key == started
      case CallFinish(id) => IsRunning(s.registry, key) && key != s.jobs[id].key
      case _ => IsRunning(s.registry, key)
  {
    PruneKeepsRunning(s.registry, s.now);
  }

  lemma SameJobs(s: System, t: System)
    requires OneJobPerRunningKey(s) && t.jobs.Keys == s.jobs.Keys
    requires forall id :: id in s.jobs ==> t.jobs[id].key == s.jobs[id].key
    requires forall key :: IsRunning(t.registry, key) <==> IsRunning(s.registry, key)
    ensures OneJobPerRunningKey(t)
  {
    forall key | IsRunning(t.registry, key) ensures exists id :: id in t.jobs && t.jobs[id].key == key {
      var id :| id in s.jobs && s.jobs[id].key == key;
      assert id in t.jobs && t.jobs[id].key == key;
    }
  }

  lemma OneJobMore(s: System, t: System, id: nat, job: Job)
    requires OneJobPerRunningKey(s) && id !in s.jobs && t.jobs == s.jobs[id := job] && !IsRunning(s.registry, job.key)
    requires forall key :: IsRunning(t.registry, key) <==> IsRunning(s.registry, key) || key == job.key
    ensures OneJobPerRunningKey(t)
  {
    assert t.jobs[id].key == job.key;
    forall key | IsRunning(t.registry, key) ensures exists i :: i in t.jobs && t.jobs[i].key == key {
      if key != job.key {
        var i :| i in s.jobs && s.jobs[i].key == key;
        assert i in t.jobs && t.jobs[i].key == key;
      }
    }
  }

  lemma OneJobLess(s: System, t: System, id: nat)
    requires OneJobPerRunningKey(s) && id in s.jobs && t.jobs == s.jobs - {id}
    requires forall key :: IsRunning(t.registry, key) <==> IsRunning(s.registry, key) && key != s.jobs[id].key
    ensures OneJobPerRunningKey(t)
  {
    forall key | IsRunning(t.registry, key) ensures exists i :: i in t.jobs && t.jobs[i].key == key {
      var i :| i in s.jobs && s.jobs[i].key == key;
      assert i in t.jobs && t.jobs[i].key == key;
    }
  }

  lemma StepKeepsJobs(s: System, a: Action)
    requires OneJobPerRunningKey(s) && Next(s, a).Some?
    ensures OneJobPerRunningKey(Next(s, a).value)
  {
    var t := Next(s, a).value;
    RunningAfterStep(s, a);
    match a
    case CallStart(id, key, kind) =>
      if IsRunning(s.registry, key) {
        SameJobs(s, t);
      } else {
        OneJobMore(s, t, id, Job(key, kind, Reserved));
      }
    case CallFinish(id) => OneJobLess(s, t, id);
    case _ => SameJobs(s, t);
  }

  lemma {:induction false} RunKeepsJobs(s: System, schedule: seq<Action>)
    requires OneJobPerRunningKey(s) && Run(s, schedule).Some?
    ensures OneJobPerRunningKey(Run(s, schedule).value)
    decreases |schedule|
  {
    if schedule != [] {
      StepKeepsJobs(s, schedule[0]);
      RunKeepsJobs(Next(s, schedule[0]).value, schedule[1..]);
    }
  }

  /** Before the first call nothing runs and nothing is in flight. */
  function Initial(now: nat): System {
    System(map[], now, map[])
  }

  /**
   * After every interleaving a repository has a running record exactly when one job is in flight for it, and never two.
   */
  lemma {:induction false} RunningMeansInFlight(now: nat, schedule: seq<Action>)
    requires Run(Initial(now), schedule).Some?
    ensures OneJobPerRunningKey(Run(Initial(now), schedule).value)
  {
    RunKeepsJobs(Initial(now), schedule);
  }

  predicate StartAccepted(s: System, key: string) {
    !IsRunning(s.registry, key)
  }

  /** Every finish, whatever the result, reports that result and lets the repository start again. */
  lemma FinishReenablesStart(s: System, id: nat)
    requires OneJobPerRunningKey(s) && Next(s, CallFinish(id)).Some?
    ensures var t := Next(s, CallFinish(id)).value; var job := s.jobs[id];
      && StartAccepted(t, job.key)
      && Lookup(Prune(t.registry, t.now), job.key) == Some(StatusOf(job.kind, job.phase.result))
      && forall key :: key != job.key ==> (StartAccepted(t, key) <==> StartAccepted(s, key))
  {
    PruneKeepsRunning(s.registry, s.now);
  }

  function StepsLeft(phase: Phase): nat {
    match phase
    case Reserved => 3
    case Executing => 2
    case Ended(_) => 1
  }

  /** No repository stays blocked: its job's own next steps, at most three of them, free it. */
  lemma {:induction false} BlockedKeyCanBeFreed(s: System, key: string) returns (schedule: seq<Action>)
    requires OneJobPerRunningKey(s) && !StartAccepted(s, key)
    ensures 1 <= |schedule| <= 3 && Run(s, schedule).Some? && StartAccepted(Run(s, schedule).value, key)
  {
    var id :| id in s.jobs && s.jobs[id].key == key;
    schedule := FreeingSteps(s, id);
  }

  lemma {:induction false} FreeingSteps(s: System, id: nat) returns (schedule: seq<Action>)
    requires OneJobPerRunningKey(s) && id in s.jobs
    ensures |schedule| == StepsLeft(s.jobs[id].phase) && Run(s, schedule).Some? &&
      StartAccepted(Run(s, schedule).value, s.jobs[id].key)
    decreases StepsLeft(s.jobs[id].phase)
  {
    var a :=
      match s.jobs[id].phase
      case Reserved => Spawn(id)
      case Executing => End(id, Completed(None))
      case Ended(_) => CallFinish(id);
    var next := Next(s, a).value;
    if s.jobs[id].phase.Ended? {
      FinishReenablesStart(s, id);
      schedule := [a];
      assert schedule[1..] == [];
    } else {
      StepKeepsJobs(s, a);
      var rest := FreeingSteps(next, id);
      schedule := [a] + rest;
      assert schedule[1..] == rest;
    }
  }
}
