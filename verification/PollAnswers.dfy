/** What the visits of a target leave in its cache and answer, read off the visits themselves. */
module PollAnswers {
  import opened Wrappers
  import opened PollCache

  // ----- which visits count

  /** Without a client, without a token, or with a request that fails. */
  predicate IsBad(visit: Visit) {
    visit.ClientFailed? || visit.poll.authError.Some? || visit.poll.reply.Err?
  }

  function ErrorOf(visit: Visit): string
    requires IsBad(visit)
  {
    if visit.ClientFailed? then visit.error
    else if visit.poll.authError.Some? then visit.poll.authError.value
    else visit.poll.reply.error
  }

  function WallClock(visit: Visit): int {
    if visit.ClientFailed? then visit.at else visit.poll.at
  }

  /** Ten seconds after a bad visit, as far as the clock can count. */
  function MutedUntil(visit: Visit): nat {
    var end := (if visit.ClientFailed? then visit.atMs else visit.poll.recordMs) + 10_000;
    if end > U64_MAX then U64_MAX else end
  }

  /** The last of the first `n` visits that did not meet a backoff, or that could not even poll. */
  function LastHeard(visits: seq<Visit>, n: nat): (k: Option<nat>)
    requires n <= |visits|
    ensures k.Some? ==> k.value < n
  {
    if n == 0 then None
    else
      var before := LastHeard(visits, n - 1);
      if visits[n - 1].ClientFailed? || !IsMuted(visits, before, visits[n - 1].poll.checkMs) then Some(n - 1)
      else before
  }

  /** The target backs off at time `now` if the visit heard last was a bad one less than ten seconds ago. */
  predicate IsMuted(visits: seq<Visit>, heard: Option<nat>, now: nat)
    requires heard.Some? ==> heard.value < |visits|
  {
    heard.Some? && IsBad(visits[heard.value]) && now < MutedUntil(visits[heard.value])
  }

  /** The last good one of the visits heard among the first `n`. */
  function LastGoodVisit(visits: seq<Visit>, n: nat): (k: Option<nat>)
    requires n <= |visits|
    ensures k.Some? ==> k.value < n && !IsBad(visits[k.value])
  {
    if n == 0 then None
    else if LastHeard(visits, n) == Some(n - 1) && !IsBad(visits[n - 1]) then Some(n - 1)
    else LastGoodVisit(visits, n - 1)
  }

  function GoodSessions(visits: seq<Visit>, n: nat): seq<PolledSession>
    requires n <= |visits|
  {
    var k := LastGoodVisit(visits, n);
    if k.None? then [] else visits[k.value].poll.reply.value
  }

  function GoodSince(visits: seq<Visit>, n: nat): Option<int>
    requires n <= |visits|
  {
    var k := LastGoodVisit(visits, n);
    if k.None? then None else Some(visits[k.value].poll.at)
  }

  // ----- the entry and the answers

  lemma GoodVisit(entry: Option<Entry>, visit: Visit)
    requires !IsBad(visit) && !InBackoff(entry, visit.poll.checkMs)
    ensures AfterVisit(entry, visit) == Some(Entry(visit.poll.reply.value, Some(visit.poll.at), None, None, 0))
    ensures Answer(entry, visit) == visit.poll.reply.value && VisitRequests(entry, visit)
  {
  }

  lemma BadVisit(entry: Option<Entry>, visit: Visit)
    requires IsBad(visit) && (visit.Polled? ==> !InBackoff(entry, visit.poll.checkMs))
    ensures var (sessions, seen) := LastGood(entry);
      && AfterVisit(entry, visit)
           == Some(Entry(sessions, seen, Some(WallClock(visit)), Some(ErrorOf(visit)), MutedUntil(visit)))
      && Answer(entry, visit) == DegradedCopies(sessions, seen)
      && (VisitRequests(entry, visit) <==> visit.Polled? && visit.poll.authError.None?)
  {
  }

  lemma MutedVisit(entry: Option<Entry>, visit: Visit)
    requires visit.Polled? && InBackoff(entry, visit.poll.checkMs)
    ensures AfterVisit(entry, visit) == entry && !VisitRequests(entry, visit)
    ensures Answer(entry, visit) == DegradedCopies(LastGood(entry).0, LastGood(entry).1)
  {
  }

  /**
   * Whatever the clocks do: the sessions in the cache are those of the last good visit, and the error fields are set
   * exactly after a bad one, with its error and a backoff of ten seconds.
   */
  lemma {:induction false} VisitsMeaning(visits: seq<Visit>, n: nat)
    requires n <= |visits|
    ensures LastHeard(visits, n).None? ==> EntryBefore(visits, n).None? && LastGoodVisit(visits, n).None?
    ensures LastHeard(visits, n).Some? ==>
      var last := visits[LastHeard(visits, n).value];
      EntryBefore(visits, n) == Some(
        if IsBad(last)
        then Entry(GoodSessions(visits, n), GoodSince(visits, n), Some(WallClock(last)), Some(ErrorOf(last)),
               MutedUntil(last))
        else Entry(GoodSessions(visits, n), GoodSince(visits, n), None, None, 0))
    ensures forall now: nat :: InBackoff(EntryBefore(visits, n), now) <==> IsMuted(visits, LastHeard(visits, n), now)
  {
    if n > 0 {
      VisitsMeaning(visits, n - 1);
      var visit, before := visits[n - 1], EntryBefore(visits, n - 1);
      if visit.Polled? && InBackoff(before, visit.poll.checkMs) {
        MutedVisit(before, visit);
      } else if IsBad(visit) {
        BadVisit(before, visit);
      } else {
        GoodVisit(before, visit);
      }
    }
  }

  predicate IsStaleCopy(copy: PolledSession, of: PolledSession, seen: Option<int>) {
    copy == PolledSession(of.id, true, Degraded, RemotePollDegraded, seen, of.rest)
  }

  /**
   * A visit requests exactly with a token and outside a backoff. It answers with what it got, and otherwise with the
   * sessions of the last good visit, the same and in the same order, all stale, degraded and dated back.
   */
  lemma {:induction false} AnswersMeaning(visits: seq<Visit>, n: nat)
    requires n < |visits|
    ensures var visit, entry := visits[n], EntryBefore(visits, n);
      var heard := visit.Polled? && !IsMuted(visits, LastHeard(visits, n), visit.poll.checkMs);
      && (VisitRequests(entry, visit) <==> heard && visit.poll.authError.None?)
      && if heard && !IsBad(visit) then Answer(entry, visit) == visit.poll.reply.value
         else
           && |Answer(entry, visit)| == |GoodSessions(visits, n)|
           && forall i :: 0 <= i < |Answer(entry, visit)| ==>
                IsStaleCopy(Answer(entry, visit)[i], GoodSessions(visits, n)[i], GoodSince(visits, n))
  {
    VisitsMeaning(visits, n);
    var visit, entry := visits[n], EntryBefore(visits, n);
    if visit.Polled? && InBackoff(entry, visit.poll.checkMs) {
      MutedVisit(entry, visit);
    } else if IsBad(visit) {
      BadVisit(entry, visit);
    } else {
      GoodVisit(entry, visit);
    }
  }
}
