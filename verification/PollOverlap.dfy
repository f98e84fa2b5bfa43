/** Polls of one target that overlap: check, request and record of different listings in any order. */
module PollOverlap {
  import opened Wrappers
  import opened PollCache

  /** A poll on its way: how much was recorded, and what time it was, at its backoff check. */
  datatype Flight = Checked(seen: nat, checkMs: nat) | Requested(seen: nat, checkMs: nat)

  /** Everything recorded for the target so far, the millisecond clock, and the polls on their way. */
  datatype Target = Target(log: seq<Event>, nowMs: nat, flights: map<nat, Flight>)

  datatype Action =
    | Tick(ms: nat)
    | Check(id: nat)
    | AuthFail(id: nat, at: int, error: string)
    | Request(id: nat)
    | Reply(id: nat, at: int, result: Result<seq<PolledSession>, string>)
    | ClientFail(at: int, error: string)

  /** A poll that finds the target backing off is answered from the cache and goes no further. */
  function Next(s: Target, a: Action): Option<Target> {
    match a
    case Tick(ms) => Some(s.(nowMs := s.nowMs + ms))
    case Check(id) =>
      if id in s.flights then None
      else if InBackoff(Replay(s.log), s.nowMs) then Some(s)
      else Some(s.(flights := s.flights[id := Checked(|s.log|, s.nowMs)]))
    case AuthFail(id, at, error) =>
      if id in s.flights && s.flights[id].Checked? then Some(Recorded(s, id, Failure(at, s.nowMs, error))) else None
    case Request(id) =>
      if id in s.flights && s.flights[id].Checked?
      then Some(s.(flights := s.flights[id := Requested(s.flights[id].seen, s.flights[id].checkMs)]))
      else None
    case Reply(id, at, result) =>
      if id in s.flights && s.flights[id].Requested? then
        match result
        case Ok(sessions) => Some(Recorded(s, id, Success(at, sessions)))
        case Err(error) => Some(Recorded(s, id, Failure(at, s.nowMs, error)))
      else None
    case ClientFail(at, error) => Some(s.(log := s.log + [Failure(at, s.nowMs, error)]))
  }

  function Recorded(s: Target, id: nat, e: Event): Target {
    s.(log := s.log + [e], flights := s.flights - {id})
  }

  function Run(s: Target, schedule: seq<Action>): Option<Target>
    decreases |schedule|
  {
    if schedule == [] then Some(s)
    else match Next(s, schedule[0]) case None => None case Some(next) => Run(next, schedule[1..])
  }

  function Initial(nowMs: nat): Target {
    Target([], nowMs, map[])
  }

  // ----- what every step keeps

  /** Failures are recorded in the order of their times, none in the future. */
  ghost predicate TimesFollow(log: seq<Event>, nowMs: nat) {
    && (forall i :: 0 <= i < |log| && log[i].Failure? ==> log[i].atMs <= nowMs)
    && (forall i, j :: 0 <= i < j < |log| && log[i].Failure? && log[j].Failure? ==> log[i].atMs <= log[j].atMs)
  }

  /** The poll passed its check: the target was not backing off then. */
  ghost predicate PassedCheck(log: seq<Event>, nowMs: nat, f: Flight) {
    f.seen <= |log| && f.checkMs <= nowMs && !InBackoff(Replay(log[..f.seen]), f.checkMs)
  }

  ghost predicate Sound(s: Target) {
    TimesFollow(s.log, s.nowMs) && forall id :: id in s.flights ==> PassedCheck(s.log, s.nowMs, s.flights[id])
  }

  lemma MoreIsRecorded(log: seq<Event>, nowMs: nat, e: Event, f: Flight)
    requires PassedCheck(log, nowMs, f)
    ensures PassedCheck(log + [e], nowMs, f)
  {
    assert (log + [e])[..f.seen] == log[..f.seen];
  }

  lemma RecordKeepsTimes(log: seq<Event>, nowMs: nat, e: Event)
    requires TimesFollow(log, nowMs) && (e.Failure? ==> e.atMs == nowMs)
    ensures TimesFollow(log + [e], nowMs)
  {
  }

  lemma RecordKeepsSound(s: Target, t: Target, e: Event)
    requires Sound(s) && (e.Failure? ==> e.atMs == s.nowMs) && t.log == s.log + [e] && t.nowMs == s.nowMs
    requires forall id :: id in t.flights ==> id in s.flights && t.flights[id] == s.flights[id]
    ensures Sound(t)
  {
    RecordKeepsTimes(s.log, s.nowMs, e);
    forall id | id in t.flights ensures PassedCheck(t.log, t.nowMs, t.flights[id]) {
      MoreIsRecorded(s.log, s.nowMs, e, s.flights[id]);
    }
  }

  lemma CheckKeepsSound(s: Target, id: nat)
    requires Sound(s) && Next(s, Check(id)).Some?
    ensures Sound(Next(s, Check(id)).value)
  {
    assert s.log[..|s.log|] == s.log;
  }

  lemma StepKeepsSound(s: Target, a: Action)
    requires Sound(s) && Next(s, a).Some?
    ensures Sound(Next(s, a).value)
  {
    var t := Next(s, a).value;
    match a
    case Check(id) => CheckKeepsSound(s, id);
    case AuthFail(id, at, error) => RecordKeepsSound(s, t, Failure(at, s.nowMs, error));
    case Reply(id, at, result) =>
      RecordKeepsSound(s, t, if result.Ok? then Success(at, result.value) else Failure(at, s.nowMs, result.error));
    case ClientFail(at, error) => RecordKeepsSound(s, t, Failure(at, s.nowMs, error));
    case Tick(_) =>
    case Request(_) =>
  }

  lemma {:induction false} RunKeepsSound(s: Target, schedule: seq<Action>)
    requires Sound(s) && Run(s, schedule).Some?
    ensures Sound(Run(s, schedule).value)
    decreases |schedule|
  {
    if schedule != [] {
      StepKeepsSound(s, schedule[0]);
      RunKeepsSound(Next(s, schedule[0]).value, schedule[1..]);
    }
  }

  // ----- a failure and what follows it

  lemma {:induction false} FailuresKeepLastGood(log: seq<Event>, i: nat)
    requires i <= |log| && forall j :: i <= j < |log| ==> log[j].Failure?
    ensures LastGood(Replay(log)) == LastGood(Replay(log[..i]))
  {
    if i == |log| {
      assert log[..i] == log;
    } else {
      var before := log[..|log| - 1];
      FailuresKeepLastGood(before, i);
      assert before[..i] == log[..i];
    }
  }

  ghost predicate SuccessAfter(log: seq<Event>, i: nat) {
    exists j :: i < j < |log| && log[j].Success?
  }

  /** The end of the backoff that the failure at position `i` starts. */
  function EndOf(log: seq<Event>, i: nat): nat
    requires i < |log| && log[i].Failure?
  {
    SaturatingAdd(log[i].atMs, FAILURE_BACKOFF_MS)
  }

  lemma StillBackingOff(log: seq<Event>, i: nat, nowMs: nat)
    requires TimesFollow(log, nowMs) && i < |log| && log[i].Failure? && !SuccessAfter(log, i) && nowMs < EndOf(log, i)
    ensures InBackoff(Replay(log), nowMs) && Replay(log).value.backoffUntilMs >= EndOf(log, i)
    ensures LastGood(Replay(log)) == LastGood(Replay(log[..i]))
  {
    var last := |log| - 1;
    assert log[last].Failure? && log[i].atMs <= log[last].atMs;
    EntryMeaning(log);
    FailuresKeepLastGood(log, i);
  }

  /**
   * However polls overlap: until ten seconds after a failure the target backs off, never for a shorter
   * time, and shows the last good sessions from before it, unless a success was recorded since.
   */
  lemma {:induction false} OnlySuccessEndsBackoffEarly(startMs: nat, schedule: seq<Action>, i: nat)
    requires Run(Initial(startMs), schedule).Some?
    requires var s := Run(Initial(startMs), schedule).value;
      i < |s.log| && s.log[i].Failure? && s.nowMs < EndOf(s.log, i) && !SuccessAfter(s.log, i)
    ensures var s := Run(Initial(startMs), schedule).value;
      && InBackoff(Replay(s.log), s.nowMs) && Replay(s.log).value.backoffUntilMs >= EndOf(s.log, i)
      && LastGood(Replay(s.log)) == LastGood(Replay(s.log[..i]))
  {
    RunKeepsSound(Initial(startMs), schedule);
    var s := Run(Initial(startMs), schedule).value;
    StillBackingOff(s.log, i, s.nowMs);
  }

  lemma CheckWouldRefuse(log: seq<Event>, nowMs: nat, f: Flight)
    requires PassedCheck(log, nowMs, f) && InBackoff(Replay(log), nowMs)
    ensures f.seen < |log| && log[|log| - 1].Failure?
  {
    BackoffMeaning(log, nowMs);
    assert log[..|log|] == log;
  }

  /**
   * A request starts while the target backs off exactly where a failure under ten seconds old overtook its own check.
   */
  lemma {:induction false} RequestPredatesFailure(startMs: nat, schedule: seq<Action>, id: nat)
    requires Run(Initial(startMs), schedule).Some? && Next(Run(Initial(startMs), schedule).value, Request(id)).Some?
    ensures var s := Run(Initial(startMs), schedule).value;
      InBackoff(Replay(s.log), s.nowMs) <==>
        && s.flights[id].seen < |s.log| && s.log[|s.log| - 1].Failure?
        && s.nowMs < EndOf(s.log, |s.log| - 1)
  {
    RunKeepsSound(Initial(startMs), schedule);
    var s := Run(Initial(startMs), schedule).value;
    BackoffMeaning(s.log, s.nowMs);
    if InBackoff(Replay(s.log), s.nowMs) {
      CheckWouldRefuse(s.log, s.nowMs, s.flights[id]);
    }
  }

  lemma RunThree(s0: Target, a: Action, b: Action, c: Action)
    requires Next(s0, a).Some? && Next(Next(s0, a).value, b).Some?
    ensures Run(s0, [a, b, c]) == Next(Next(Next(s0, a).value, b).value, c)
  {
    var s1 := Next(s0, a).value;
    var s2 := Next(s1, b).value;
    assert [a, b, c][1..] == [b, c] && [b, c][1..] == [c] && [c][1..] == [];
    assert Run(s2, [c]) == match Next(s2, c) case None => None case Some(s3) => Run(s3, []);
    assert Run(s1, [b, c]) == Run(s2, [c]);
  }

  lemma LastFailureBacksOff(s: Target, e: Event)
    requires s.log == [e] && e.Failure? && e.atMs == s.nowMs == 0
    ensures InBackoff(Replay(s.log), s.nowMs)
  {
    BackoffMeaning(s.log, 0);
  }

  /** Such requests exist: one poll passes its check, another one fails, and then the first sends its request. */
  lemma {:induction false} RequestIsOvertaken()
    ensures var schedule := [Check(0), Check(1), AuthFail(1, 0, "AUTH")];
      var run := Run(Initial(0), schedule);
      run.Some? && Next(run.value, Request(0)).Some? && InBackoff(Replay(run.value.log), run.value.nowMs)
  {
    var s0 := Initial(0);
    var s1 := Next(s0, Check(0)).value;
    var s2 := Next(s1, Check(1)).value;
    var s3 := Next(s2, AuthFail(1, 0, "AUTH")).value;
    RunThree(s0, Check(0), Check(1), AuthFail(1, 0, "AUTH"));
    LastFailureBacksOff(s3, Failure(0, 0, "AUTH"));
  }

  // ----- what the actions of a run leave in the cache

  predicate IsGood(a: Action) {
    a.Reply? && a.result.Ok?
  }

  predicate IsBad(a: Action) {
    a.AuthFail? || a.ClientFail? || (a.Reply? && a.result.Err?)
  }

  /** The millisecond clock before action `n`. */
  function ClockAt(startMs: nat, schedule: seq<Action>, n: nat): nat
    requires n <= |schedule|
  {
    if n == 0 then startMs
    else ClockAt(startMs, schedule, n - 1) + if schedule[n - 1].Tick? then schedule[n - 1].ms else 0
  }

  function LastAnswer(schedule: seq<Action>, n: nat): (k: Option<nat>)
    requires n <= |schedule|
    ensures k.Some? ==> k.value < n && (IsGood(schedule[k.value]) || IsBad(schedule[k.value]))
  {
    if n == 0 then None
    else if IsGood(schedule[n - 1]) || IsBad(schedule[n - 1]) then Some(n - 1)
    else LastAnswer(schedule, n - 1)
  }

  function LastGoodReply(schedule: seq<Action>, n: nat): (k: Option<nat>)
    requires n <= |schedule|
    ensures k.Some? ==> k.value < n && IsGood(schedule[k.value]) && LastAnswer(schedule, n).Some?
  {
    if n == 0 then None
    else if IsGood(schedule[n - 1]) then Some(n - 1)
    else LastGoodReply(schedule, n - 1)
  }

  /** The entry that the first `n` actions should leave. */
  function EntryAfter(startMs: nat, schedule: seq<Action>, n: nat): Option<Entry>
    requires n <= |schedule|
  {
    var answer, good := LastAnswer(schedule, n), LastGoodReply(schedule, n);
    if answer.None? then None
    else
      var last := schedule[answer.value];
      var sessions := if good.None? then [] else schedule[good.value].result.value;
      var seen := if good.None? then None else Some(schedule[good.value].at);
      if IsGood(last) then Some(Entry(sessions, seen, None, None, 0))
      else
        Some(Entry(sessions, seen, Some(last.at), Some(ErrorOf(last)),
          TenSecondsOn(ClockAt(startMs, schedule, answer.value))))
  }

  function ErrorOf(a: Action): string
    requires IsBad(a)
  {
    if a.Reply? then a.result.error else a.error
  }

  /** As far as the clock can count. */
  function TenSecondsOn(ms: nat): nat {
    if ms + 10_000 > U64_MAX then U64_MAX else ms + 10_000
  }

  lemma OneMoreRecord(log: seq<Event>, e: Event)
    ensures Replay(log + [e]) == Some(Record(Replay(log), e))
  {
    assert (log + [e])[..|log|] == log;
  }

  lemma GoodStep(s: Target, a: Action)
    requires Next(s, a).Some? && IsGood(a)
    ensures Replay(Next(s, a).value.log) == Some(Entry(a.result.value, Some(a.at), None, None, 0))
    ensures Next(s, a).value.nowMs == s.nowMs
  {
    OneMoreRecord(s.log, Success(a.at, a.result.value));
  }

  lemma BadStep(s: Target, a: Action)
    requires Next(s, a).Some? && IsBad(a)
    ensures var (sessions, seen) := LastGood(Replay(s.log));
      Replay(Next(s, a).value.log)
        == Some(Entry(sessions, seen, Some(a.at), Some(ErrorOf(a)), TenSecondsOn(s.nowMs)))
    ensures Next(s, a).value.nowMs == s.nowMs
  {
    assert Next(s, a).value.log == s.log + [Failure(a.at, s.nowMs, ErrorOf(a))];
    OneMoreRecord(s.log, Failure(a.at, s.nowMs, ErrorOf(a)));
  }

  lemma {:induction false} RunOneMore(s: Target, schedule: seq<Action>, n: nat)
    requires n < |schedule| && Run(s, schedule).Some?
    ensures Run(s, schedule[..n]).Some?
    ensures Next(Run(s, schedule[..n]).value, schedule[n]) == Run(s, schedule[..n + 1]) != None
    decreases n
  {
    var next := Next(s, schedule[0]).value;
    assert schedule[..n + 1][1..] == schedule[1..][..n];
    if n == 0 {
      assert schedule[..0] == [] && schedule[..1][1..] == [];
    } else {
      assert schedule[..n][1..] == schedule[1..][..n - 1];
      RunOneMore(next, schedule[1..], n - 1);
    }
  }

  /**
   * However polls overlap, the cache holds the sessions of the last good reply to arrive. Its error fields are set
   * exactly where a failure arrived last, with that failure's error and a backoff of ten seconds from its arrival.
   */
  lemma {:induction false} CacheFollowsAnswers(startMs: nat, schedule: seq<Action>, n: nat)
    requires n <= |schedule| && Run(Initial(startMs), schedule).Some?
    ensures Run(Initial(startMs), schedule[..n]).Some?
    ensures var s := Run(Initial(startMs), schedule[..n]).value;
      Replay(s.log) == EntryAfter(startMs, schedule, n) && s.nowMs == ClockAt(startMs, schedule, n)
  {
    if n > 0 {
      CacheFollowsAnswers(startMs, schedule, n - 1);
      RunOneMore(Initial(startMs), schedule, n - 1);
      var s, a := Run(Initial(startMs), schedule[..n - 1]).value, schedule[n - 1];
      if IsGood(a) {
        GoodStep(s, a);
      } else if IsBad(a) {
        BadStep(s, a);
      }
    } else {
      assert schedule[..0] == [];
    }
  }

  /** A poll that nothing disturbs goes through exactly where the target does not back off. */
  lemma {:induction false} PollGoesThrough(s: Target, id: nat, at: int, result: Result<seq<PolledSession>, string>)
    requires id !in s.flights
    ensures var run := Run(s, [Check(id), Request(id), Reply(id, at, result)]);
      && (run.Some? <==> !InBackoff(Replay(s.log), s.nowMs))
      && (run.Some? ==> run.value.flights == s.flights)
    ensures InBackoff(Replay(s.log), s.nowMs) ==> Next(s, Check(id)) == Some(s)
  {
    var check, request, reply := Check(id), Request(id), Reply(id, at, result);
    var s1 := Next(s, check).value;
    if InBackoff(Replay(s.log), s.nowMs) {
      assert [check, request, reply][1..] == [request, reply];
      assert Next(s1, request).None?;
    } else {
      RunThree(s, check, request, reply);
    }
  }
}
