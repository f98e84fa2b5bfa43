/** The per-target cache of remote session polls, with its failure backoff and the health derived from it. */
module PollCache {
  import opened Wrappers

  const FAILURE_BACKOFF_MS: nat := 10_000

  datatype Transport = Healthy | Degraded | Overloaded | Disconnected
  datatype Cause = RemotePollDegraded | Other(cause: string)

  /** A polled session; `rest` stands for the fields that the cache only carries along. */
  datatype PolledSession = PolledSession(id: string, isStale: bool, transport: Transport, cause: Cause,
    observedAt: Option<int>, rest: string)

  datatype Entry = Entry(
    sessions: seq<PolledSession>, lastSeenAt: Option<int>, lastErrorAt: Option<int>, lastError: Option<string>,
    backoffUntilMs: nat)

  datatype Status = StatusHealthy | StatusDegraded | StatusUnavailable | StatusUnknown

  function DegradedCopy(s: PolledSession, lastSeenAt: Option<int>): PolledSession {
    s.(isStale := true, transport := Degraded, cause := RemotePollDegraded, observedAt := lastSeenAt)
  }

  function DegradedCopies(sessions: seq<PolledSession>, lastSeenAt: Option<int>): (r: seq<PolledSession>)
    ensures |r| == |sessions|
    ensures forall i :: 0 <= i < |r| ==>
      r[i] == PolledSession(sessions[i].id, true, Degraded, RemotePollDegraded, lastSeenAt, sessions[i].rest)
  {
    if sessions == [] then [] else [DegradedCopy(sessions[0], lastSeenAt)] + DegradedCopies(sessions[1..], lastSeenAt)
  }

  function SaturatingAdd(a: nat, b: nat): nat {
    if a + b > U64_MAX then U64_MAX else a + b
  }

  // ----- what was recorded for a target

  /** `at` is the wall clock of the record; `atMs` the millisecond clock that the backoff counts from. */
  datatype Event =
    | Success(at: int, sessions: seq<PolledSession>)
    | Failure(at: int, atMs: nat, error: string)

  function Record(entry: Option<Entry>, e: Event): Entry {
    match e
    case Success(at, sessions) => Entry(sessions, Some(at), None, None, 0)
    case Failure(at, atMs, error) =>
      var kept := if entry.Some? then entry.value else Entry([], None, None, None, 0);
      kept.(lastErrorAt := Some(at), lastError := Some(error),
        backoffUntilMs := SaturatingAdd(atMs, FAILURE_BACKOFF_MS))
  }

  function Replay(log: seq<Event>): Option<Entry> {
    if log == [] then None else Some(Record(Replay(log[..|log| - 1]), log[|log| - 1]))
  }

  predicate InBackoff(entry: Option<Entry>, nowMs: nat) {
    entry.Some? && nowMs < entry.value.backoffUntilMs
  }

  function StaleSessions(entry: Option<Entry>): seq<PolledSession> {
    if entry.None? then [] else DegradedCopies(entry.value.sessions, entry.value.lastSeenAt)
  }

  predicate ErrorIsCurrent(entry: Entry) {
    entry.lastErrorAt.Some? && (entry.lastSeenAt.Some? ==> entry.lastErrorAt.value >= entry.lastSeenAt.value)
  }

  function Health(entry: Option<Entry>, configError: bool, nowMs: nat): Status {
    if configError then StatusUnavailable
    else if entry.None? then StatusUnknown
    else
      var seen := entry.value.lastSeenAt.Some?;
      if ErrorIsCurrent(entry.value) || nowMs < entry.value.backoffUntilMs
      then if seen then StatusDegraded else StatusUnavailable
      else if seen then StatusHealthy else StatusUnknown
  }

  /**
   * One call of the poll loop for a target: its clock readings and what authentication and the request would answer.
   */
  datatype Poll = Poll(checkMs: nat, authError: Option<string>, reply: Result<seq<PolledSession>, string>, at: int,
    recordMs: nat)

  /** What a poll records; nothing while the target backs off. */
  function EventOf(entry: Option<Entry>, poll: Poll): Option<Event> {
    if InBackoff(entry, poll.checkMs) then None
    else
      match (poll.authError, poll.reply)
      case (Some(error), _) => Some(Failure(poll.at, poll.recordMs, error))
      case (None, Ok(sessions)) => Some(Success(poll.at, sessions))
      case (None, Err(error)) => Some(Failure(poll.at, poll.recordMs, error))
  }

  predicate MakesRequest(entry: Option<Entry>, poll: Poll) {
    !InBackoff(entry, poll.checkMs) && poll.authError.None?
  }

  /**
   * What one listing of all targets does for a target: a poll, or a failure at once when no HTTP client could be built.
   */
  datatype Visit = ClientFailed(at: int, atMs: nat, error: string) | Polled(poll: Poll)
  {
    function StartMs(): nat {
      if Polled? then poll.checkMs else atMs
    }

    function EndMs(): nat {
      if Polled? then poll.recordMs else atMs
    }
  }

  /** A client failure is recorded whether or not the target backs off. */
  function VisitEvent(entry: Option<Entry>, visit: Visit): Option<Event> {
    match visit
    case ClientFailed(at, atMs, error) => Some(Failure(at, atMs, error))
    case Polled(poll) => EventOf(entry, poll)
  }

  predicate VisitRequests(entry: Option<Entry>, visit: Visit) {
    visit.Polled? && MakesRequest(entry, visit.poll)
  }

  function AfterVisit(entry: Option<Entry>, visit: Visit): Option<Entry> {
    match VisitEvent(entry, visit)
    case None => entry
    case Some(e) => Some(Record(entry, e))
  }

  /** The sessions that a visit answers with. */
  function Answer(entry: Option<Entry>, visit: Visit): seq<PolledSession> {
    match VisitEvent(entry, visit)
    case Some(Success(_, sessions)) => sessions
    case _ => StaleSessions(AfterVisit(entry, visit))
  }

  /** The entry that the first `i` visits of a target leave. */
  function EntryBefore(visits: seq<Visit>, i: nat): Option<Entry>
    requires i <= |visits|
  {
    if i == 0 then None else AfterVisit(EntryBefore(visits, i - 1), visits[i - 1])
  }

  /** The events that the first `i` visits record, in order. */
  function EventsBefore(visits: seq<Visit>, i: nat): seq<Event>
    requires i <= |visits|
  {
    if i == 0 then []
    else
      match VisitEvent(EntryBefore(visits, i - 1), visits[i - 1])
      case None => EventsBefore(visits, i - 1)
      case Some(e) => EventsBefore(visits, i - 1) + [e]
  }

  // ----- the shared map

  class RemoteTargetSessionCache {
    var entries: map<string, Entry>

    constructor ()
      ensures entries == map[]
    {
      entries := map[];
    }

    function EntryOf(target: string): Option<Entry>
      reads this
    {
      if target in entries then Some(entries[target]) else None
    }

    predicate BackoffActive(target: string, nowMs: nat)
      reads this
    {
      InBackoff(EntryOf(target), nowMs)
    }

    method RecordSuccess(target: string, sessions: seq<PolledSession>, at: int)
      modifies this
      ensures entries == old(entries)[target := Record(old(EntryOf(target)), Success(at, sessions))]
    {
      entries := entries[target := Entry(sessions, Some(at), None, None, 0)];
    }

    method RecordFailure(target: string, error: string, at: int, nowMs: nat) returns (stale: seq<PolledSession>)
      modifies this
      ensures entries == old(entries)[target := Record(old(EntryOf(target)), Failure(at, nowMs, error))]
      ensures stale == StaleSessions(EntryOf(target))
    {
      var backoffUntilMs := SaturatingAdd(nowMs, FAILURE_BACKOFF_MS);
      if target !in entries {
        entries := entries[target := Entry([], None, None, None, 0)];
      }
      var entry := entries[target];
      entry := entry.(lastErrorAt := Some(at));
      entry := entry.(lastError := Some(error));
      entry := entry.(backoffUntilMs := backoffUntilMs);
      entries := entries[target := entry];
      stale := DegradedCopies(entry.sessions, entry.lastSeenAt);
    }

    /** Polls one target; the entries of the other targets are left alone. */
    method PollTarget(target: string, poll: Poll) returns (sessions: seq<PolledSession>, requested: bool)
      modifies this
      ensures requested <==> MakesRequest(old(EntryOf(target)), poll)
      ensures var e := EventOf(old(EntryOf(target)), poll);
        && entries == (if e.None? then old(entries) else old(entries)[target := Record(old(EntryOf(target)), e.value)])
        && sessions == if e.Some? && e.value.Success? then e.value.sessions else StaleSessions(EntryOf(target))
    {
      if BackoffActive(target, poll.checkMs) {
        return StaleSessions(EntryOf(target)), false;
      }
      match poll.authError {
        case Some(error) =>
          sessions := RecordFailure(target, error, poll.at, poll.recordMs);
          requested := false;
        case None =>
          requested := true;
          match poll.reply {
            case Ok(polled) =>
              RecordSuccess(target, polled, poll.at);
              sessions := polled;
            case Err(error) =>
              sessions := RecordFailure(target, error, poll.at, poll.recordMs);
          }
      }
    }

    /** A target's share of one listing. */
    method VisitTarget(target: string, visit: Visit) returns (sessions: seq<PolledSession>, requested: bool)
      modifies this
      ensures requested <==> VisitRequests(old(EntryOf(target)), visit)
      ensures sessions == Answer(old(EntryOf(target)), visit) &&
        EntryOf(target) == AfterVisit(old(EntryOf(target)), visit)
      ensures forall other :: other != target ==> EntryOf(other) == old(EntryOf(other))
    {
      match visit {
        case ClientFailed(at, atMs, error) =>
          sessions := RecordFailure(target, error, at, atMs);
          requested := false;
        case Polled(poll) =>
          sessions, requested := PollTarget(target, poll);
      }
    }
  }

  // ----- an entry is a function of its event log

  /** Position `k` holds the last success of the log. */
  ghost predicate IsLastSuccess(log: seq<Event>, k: int) {
    0 <= k < |log| && log[k].Success? && forall j :: k < j < |log| ==> log[j].Failure?
  }

  predicate ErrorFieldsFollow(entry: Entry, last: Event) {
    match last
    case Success(_, _) => entry.lastErrorAt.None? && entry.lastError.None? && entry.backoffUntilMs == 0
    case Failure(at, atMs, error) =>
      entry.lastErrorAt == Some(at) && entry.lastError == Some(error) &&
        entry.backoffUntilMs == SaturatingAdd(atMs, FAILURE_BACKOFF_MS)
  }

  /**
   * Sessions and last-seen come from the last success, the error
   * fields from the last event; no failure erases a success.
   */
  lemma {:induction false} EntryMeaning(log: seq<Event>)
    ensures Replay(log).None? <==> log == []
    ensures forall k :: IsLastSuccess(log, k) ==>
      Replay(log).value.sessions == log[k].sessions && Replay(log).value.lastSeenAt == Some(log[k].at)
    ensures log != [] && (forall j :: 0 <= j < |log| ==> log[j].Failure?) ==>
      Replay(log).value.sessions == [] && Replay(log).value.lastSeenAt.None?
    ensures log != [] ==> ErrorFieldsFollow(Replay(log).value, log[|log| - 1])
  {
    if log != [] {
      var n := |log| - 1;
      EntryMeaning(log[..n]);
      forall k | IsLastSuccess(log, k)
        ensures Replay(log).value.sessions == log[k].sessions && Replay(log).value.lastSeenAt == Some(log[k].at)
      {
        if k < n {
          assert log[n].Failure?;
          assert IsLastSuccess(log[..n], k);
        }
      }
      if forall j :: 0 <= j < |log| ==> log[j].Failure? {
        assert forall j :: 0 <= j < n ==> log[..n][j].Failure?;
      }
    }
  }

  predicate Clocked(log: seq<Event>) {
    forall i, j :: 0 <= i < j < |log| ==> log[i].at <= log[j].at
  }

  lemma {:induction false} LastSuccessExists(log: seq<Event>) returns (k: int)
    requires exists j :: 0 <= j < |log| && log[j].Success?
    ensures IsLastSuccess(log, k)
  {
    var n := |log| - 1;
    if log[n].Success? {
      k := n;
    } else {
      var j :| 0 <= j < |log| && log[j].Success?;
      assert log[..n][j].Success?;
      k := LastSuccessExists(log[..n]);
    }
  }

  ghost predicate EverSeen(log: seq<Event>) {
    exists j :: 0 <= j < |log| && log[j].Success?
  }

  /**
   * With a clock that never steps back and no config error, health is
   * read off the last event and whether a success came before.
   */
  lemma HealthMeaning(log: seq<Event>, nowMs: nat)
    requires Clocked(log)
    ensures Health(Replay(log), false, nowMs) ==
      if log == [] then StatusUnknown
      else if log[|log| - 1].Success? then StatusHealthy
      else if EverSeen(log) then StatusDegraded
      else StatusUnavailable
    ensures Health(Replay(log), true, nowMs) == StatusUnavailable
  {
    EntryMeaning(log);
    if EverSeen(log) {
      var k := LastSuccessExists(log);
      assert Replay(log).value.lastSeenAt == Some(log[k].at);
      assert log[k].at <= log[|log| - 1].at;
    } else if log != [] {
      assert forall j :: 0 <= j < |log| ==> log[j].Failure?;
      assert Replay(log).value.lastSeenAt.None?;
    }
  }

  /** On any clock: a failure after a success shows exactly while the clock readings or the backoff say so. */
  lemma FailureShowsExactlyWhen(log: seq<Event>, k: int, nowMs: nat)
    requires IsLastSuccess(log, k) && k < |log| - 1
    ensures var last := log[|log| - 1];
      Health(Replay(log), false, nowMs) ==
        if last.at >= log[k].at || nowMs < SaturatingAdd(last.atMs, FAILURE_BACKOFF_MS) then StatusDegraded
        else StatusHealthy
  {
    EntryMeaning(log);
  }

  /** A clock stepped back by one tick between a success and a failure hides the failure once the backoff is over. */
  lemma ClockStepHidesFailure()
    ensures var log := [Success(1, []), Failure(0, 0, "REMOTE_UNREACHABLE")];
      !Clocked(log) && Health(Replay(log), false, FAILURE_BACKOFF_MS) == StatusHealthy
  {
    var log := [Success(1, []), Failure(0, 0, "REMOTE_UNREACHABLE")];
    assert log[0].at > log[1].at;
    assert IsLastSuccess(log, 0);
    FailureShowsExactlyWhen(log, 0, FAILURE_BACKOFF_MS);
  }

  /**
   * Records land one at a time, so for polls that overlap too: a
   * target backs off exactly for ten seconds after a last failure.
   */
  lemma BackoffMeaning(log: seq<Event>, nowMs: nat)
    ensures InBackoff(Replay(log), nowMs) <==>
      log != [] && log[|log| - 1].Failure? && nowMs < SaturatingAdd(log[|log| - 1].atMs, FAILURE_BACKOFF_MS)
  {
    EntryMeaning(log);
  }

  // ----- runs of visits

  /** The millisecond clock never steps back, within a visit or from one visit to the next. */
  predicate ClockedVisits(visits: seq<Visit>) {
    && (forall i :: 0 <= i < |visits| ==> visits[i].StartMs() <= visits[i].EndMs())
    && (forall i, j :: 0 <= i < j < |visits| ==> visits[i].EndMs() <= visits[j].StartMs())
  }

  predicate Records(visits: seq<Visit>, i: nat)
    requires i < |visits|
  {
    VisitEvent(EntryBefore(visits, i), visits[i]).Some?
  }

  predicate RecordsFailure(visits: seq<Visit>, i: nat)
    requires i < |visits|
  {
    var e := VisitEvent(EntryBefore(visits, i), visits[i]);
    e.Some? && e.value.Failure?
  }

  /** When the backoff ends that a failure of this visit starts. */
  function BackoffEnd(visit: Visit): nat {
    SaturatingAdd(visit.EndMs(), FAILURE_BACKOFF_MS)
  }

  /** The entry is always that of the events recorded so far. */
  lemma {:induction false} EntryReplaysEvents(visits: seq<Visit>, i: nat)
    requires i <= |visits|
    ensures EntryBefore(visits, i) == Replay(EventsBefore(visits, i))
  {
    if i > 0 {
      EntryReplaysEvents(visits, i - 1);
      var before, e := EventsBefore(visits, i - 1), VisitEvent(EntryBefore(visits, i - 1), visits[i - 1]);
      if e.Some? {
        assert (before + [e.value])[..|before|] == before;
      }
    }
  }

  /** What an entry holds of the last success. */
  function LastGood(entry: Option<Entry>): (seq<PolledSession>, Option<int>) {
    if entry.None? then ([], None) else (entry.value.sessions, entry.value.lastSeenAt)
  }

  lemma FailureStartsBackoff(visits: seq<Visit>, i: nat)
    requires i < |visits| && RecordsFailure(visits, i)
    ensures EntryBefore(visits, i + 1).Some?
    ensures EntryBefore(visits, i + 1).value.backoffUntilMs == BackoffEnd(visits[i])
    ensures LastGood(EntryBefore(visits, i + 1)) == LastGood(EntryBefore(visits, i))
  {
  }

  /**
   * A visit during a backoff: a poll changes nothing, and a client
   * failure keeps the last success and only prolongs the backoff.
   */
  lemma VisitDuringBackoff(visits: seq<Visit>, i: nat)
    requires i < |visits| && InBackoff(EntryBefore(visits, i), visits[i].StartMs())
    ensures visits[i].Polled? ==> EntryBefore(visits, i + 1) == EntryBefore(visits, i)
    ensures visits[i].ClientFailed? ==> RecordsFailure(visits, i)
    ensures LastGood(EntryBefore(visits, i + 1)) == LastGood(EntryBefore(visits, i))
  {
  }

  /** No backoff recorded so far ends later than one that starts now. */
  lemma {:induction false} BackoffEndsByNow(visits: seq<Visit>, i: nat, nowMs: nat)
    requires i <= |visits| && ClockedVisits(visits) && (forall k :: 0 <= k < i ==> visits[k].EndMs() <= nowMs)
    ensures EntryBefore(visits, i).Some? ==>
      EntryBefore(visits, i).value.backoffUntilMs <= SaturatingAdd(nowMs, FAILURE_BACKOFF_MS)
  {
    if i > 0 {
      BackoffEndsByNow(visits, i - 1, nowMs);
    }
  }

  /**
   * From a failure to the end of its backoff: the last success stays as
   * it was, and the target backs off, never for a shorter time.
   */
  lemma {:induction false} BackoffFreezesEntry(visits: seq<Visit>, i: nat, j: nat)
    requires i < j < |visits| && ClockedVisits(visits) && RecordsFailure(visits, i)
    requires visits[j].StartMs() < BackoffEnd(visits[i])
    ensures LastGood(EntryBefore(visits, j)) == LastGood(EntryBefore(visits, i))
    ensures InBackoff(EntryBefore(visits, j), visits[j].StartMs())
    ensures EntryBefore(visits, j).value.backoffUntilMs >= BackoffEnd(visits[i])
    decreases j
  {
    FailureStartsBackoff(visits, i);
    if i + 1 < j {
      assert visits[j - 1].StartMs() <= visits[j - 1].EndMs() <= visits[j].StartMs();
      assert visits[i].EndMs() <= visits[j - 1].EndMs();
      BackoffFreezesEntry(visits, i, j - 1);
      VisitDuringBackoff(visits, j - 1);
      if visits[j - 1].ClientFailed? {
        FailureStartsBackoff(visits, j - 1);
      }
    }
  }

  /** Where only polls come in between, the whole entry stays as the failure left it. */
  lemma {:induction false} PollsFreezeEntry(visits: seq<Visit>, i: nat, j: nat)
    requires i < j < |visits| && ClockedVisits(visits) && RecordsFailure(visits, i)
    requires visits[j].StartMs() < BackoffEnd(visits[i])
    requires forall k :: i < k < j ==> visits[k].Polled?
    ensures EntryBefore(visits, j) == EntryBefore(visits, i + 1)
    decreases j
  {
    if i + 1 < j {
      assert visits[j - 1].StartMs() <= visits[j - 1].EndMs() <= visits[j].StartMs();
      PollsFreezeEntry(visits, i, j - 1);
      BackoffFreezesEntry(visits, i, j - 1);
      VisitDuringBackoff(visits, j - 1);
    }
  }

  /** No visit ever shortens a running backoff. */
  lemma BackoffNeverMovesBack(visits: seq<Visit>, i: nat)
    requires i < |visits| && ClockedVisits(visits) && InBackoff(EntryBefore(visits, i), visits[i].StartMs())
    ensures EntryBefore(visits, i + 1).Some?
    ensures EntryBefore(visits, i + 1).value.backoffUntilMs >= EntryBefore(visits, i).value.backoffUntilMs
  {
    VisitDuringBackoff(visits, i);
    if visits[i].ClientFailed? {
      BackoffEndsByNow(visits, i, visits[i].EndMs());
    }
  }

  /**
   * No request leaves within ten seconds of a failure. Nothing is recorded there but client failures,
   * and every visit of that window answers with the last good sessions, degraded.
   */
  lemma NoRequestDuringBackoff(visits: seq<Visit>, i: nat, j: nat)
    requires i < j < |visits| && ClockedVisits(visits) && RecordsFailure(visits, i)
    requires visits[j].StartMs() < BackoffEnd(visits[i])
    ensures !VisitRequests(EntryBefore(visits, j), visits[j])
    ensures Records(visits, j) <==> visits[j].ClientFailed?
    ensures forall k :: IsLastSuccess(EventsBefore(visits, i), k) ==>
      var success := EventsBefore(visits, i)[k];
      Answer(EntryBefore(visits, j), visits[j]) == DegradedCopies(success.sessions, Some(success.at))
    ensures !EverSeen(EventsBefore(visits, i)) ==> Answer(EntryBefore(visits, j), visits[j]) == []
  {
    BackoffFreezesEntry(visits, i, j);
    VisitDuringBackoff(visits, j);
    AnswersLastGood(EntryBefore(visits, j), visits[j]);
    var log := EventsBefore(visits, i);
    EntryReplaysEvents(visits, i);
    EntryMeaning(log);
    if !EverSeen(log) {
      assert forall l :: 0 <= l < |log| ==> log[l].Failure?;
      assert LastGood(EntryBefore(visits, i)) == ([], None);
    }
  }

  lemma AnswersLastGood(entry: Option<Entry>, visit: Visit)
    requires InBackoff(entry, visit.StartMs())
    ensures Answer(entry, visit) == DegradedCopies(entry.value.sessions, entry.value.lastSeenAt)
  {
  }

  /** Once nothing newer was recorded, polls go through again exactly from the end of the failure's backoff on. */
  lemma {:induction false} PollResumesAfterBackoff(visits: seq<Visit>, i: nat, j: nat)
    requires i < j < |visits| && RecordsFailure(visits, i)
    requires forall k :: i < k < j ==> !Records(visits, k)
    ensures Records(visits, j) <==> visits[j].ClientFailed? || visits[j].StartMs() >= BackoffEnd(visits[i])
    ensures VisitRequests(EntryBefore(visits, j), visits[j])
       <==> visits[j].Polled? && visits[j].poll.authError.None? && visits[j].StartMs() >= BackoffEnd(visits[i])
  {
    UnrecordedVisitsKeepEntry(visits, i, j);
    FailureStartsBackoff(visits, i);
  }

  lemma {:induction false} UnrecordedVisitsKeepEntry(visits: seq<Visit>, i: nat, j: nat)
    requires i < j < |visits| && forall k :: i < k < j ==> !Records(visits, k)
    ensures EntryBefore(visits, j) == EntryBefore(visits, i + 1)
    decreases j
  {
    if i + 1 < j {
      UnrecordedVisitsKeepEntry(visits, i, j - 1);
      assert !Records(visits, j - 1);
    }
  }
}
