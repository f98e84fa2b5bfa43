/** The operator pressure response: sessions, repositories, attention inbox and summary, built in one pass. */
module OperatorPressure {
  import opened Wrappers
  import opened Ordering
  import opened Seqs
  import opened Sessions
  import opened SessionIds
  import opened BatchSend

  datatype ReasonKind =
    | ReasonAwaitingUser | ReasonCommitReady | ReasonValidationMissing | ReasonDirtyCheckMissing | ReasonNeedsInput
    | ReasonError
    | ReasonSleeping | ReasonUntrustedState | ReasonStale | ReasonTransport | ReasonBusy | ReasonIdle

  datatype Tone = Quiet | Working | Warning | Danger

  datatype Pressure = Pressure(score: nat, reason: ReasonKind, tone: Tone, needsInput: bool, commitReady: bool,
    cueCount: nat)

  datatype PressureSession = PressureSession(id: string, repoKey: string, repoLabel: string, pressure: Pressure,
    batchSendIds: seq<string>)

  datatype InboxItem = InboxItem(
    id: string, repoKey: string, repoLabel: string, targetKey: string, targetLabel: string, pressure: Pressure,
    remote: bool, degraded: bool, stale: bool, transport: TransportHealth, lastActivity: string)

  /** `reason` is `None` for the placeholder that a fresh entry carries. */
  datatype RepoPressure = RepoPressure(repoKey: string, repoLabel: string, score: nat, reason: Option<ReasonKind>,
    sessionIds: seq<string>)

  datatype Summary = Summary(maxScore: nat, actionCues: nat, batchSendGroups: nat)

  datatype Response = Response(sessions: seq<PressureSession>, repos: seq<RepoPressure>, summary: Summary,
    inbox: seq<InboxItem>)

  // ----- one session

  predicate Unverified(s: Session) {
    !s.observed || s.confidence != High
  }

  datatype Signal =
    | AwaitingUserCue | CommitReadyCue | ValidationMissingCue | DirtyCheckMissingCue
    | AttentionState | BusyState | ErrorState | SleepingAgent | IdleAgentReady | DeepSleepState
    | CommitCandidateSignal | UnverifiedState | StaleSignal | UnhealthyTransport

  predicate Present(s: Session, g: Signal) {
    match g
    case AwaitingUserCue => s.awaitingUserCues > 0
    case CommitReadyCue => s.commitReadyCues > 0
    case ValidationMissingCue => s.validationMissingCues > 0
    case DirtyCheckMissingCue => s.dirtyCheckMissingCues > 0
    case AttentionState => s.state == Attention
    case BusyState => s.state == Busy
    case ErrorState => s.state == Error
    case SleepingAgent => s.restState == Sleeping
    case IdleAgentReady => s.IdleAgentCanAcceptInput()
    case DeepSleepState => s.restState == DeepSleep
    case CommitCandidateSignal => s.commitCandidate
    case UnverifiedState => Unverified(s)
    case StaleSignal => s.isStale
    case UnhealthyTransport => s.transport != Healthy
  }

  /** The most pressing signals are a waiting user and an error, the least pressing ones staleness and being busy. */
  function Weight(g: Signal): nat {
    match g
    case AwaitingUserCue | ErrorState => 55
    case CommitReadyCue | AttentionState => 45
    case ValidationMissingCue => 40
    case DirtyCheckMissingCue | SleepingAgent | IdleAgentReady => 35
    case CommitCandidateSignal => 25
    case DeepSleepState | UnhealthyTransport => 20
    case UnverifiedState => 15
    case BusyState => 12
    case StaleSignal => 10
  }

  function Contribution(present: bool, weight: nat): nat {
    if present then weight else 0
  }

  function ContributionIn(s: Session): Signal -> nat {
    g => Contribution(Present(s, g), Weight(g))
  }

  function Sum(f: Signal -> nat): nat {
    f(AwaitingUserCue) + f(CommitReadyCue) + f(ValidationMissingCue) + f(DirtyCheckMissingCue)
    + f(AttentionState) + f(BusyState) + f(ErrorState) + f(SleepingAgent)
    + f(IdleAgentReady) + f(DeepSleepState) + f(CommitCandidateSignal) + f(UnverifiedState)
    + f(StaleSignal) + f(UnhealthyTransport)
  }

  function RawScore(s: Session): nat {
    Sum(ContributionIn(s))
  }

  function Score(s: Session): (score: nat)
    ensures 1 <= score <= 99
  {
    var raw := RawScore(s);
    if raw < 1 then 1 else if raw > 99 then 99 else raw
  }

  /** Every term is in the sum, and in it once. */
  lemma SumChangesOne(f: Signal -> nat, h: Signal -> nat, g: Signal)
    requires forall k :: k != g ==> f(k) == h(k)
    ensures Sum(h) + f(g) == Sum(f) + h(g)
  {
  }

  lemma SumIsMonotone(f: Signal -> nat, h: Signal -> nat)
    requires forall k :: f(k) <= h(k)
    ensures Sum(f) <= Sum(h) && forall g :: h(g) <= Sum(h)
  {
    forall g ensures h(g) <= Sum(h) {
      SumChangesOne(h, k => if k == g then 0 else h(k), g);
    }
  }

  /** One more signal adds its weight. With the score of a session without signals this fixes every score. */
  lemma {:induction false} OneMoreSignal(s: Session, t: Session, g: Signal)
    requires !Present(s, g) && Present(t, g) && forall h :: h != g ==> (Present(s, h) <==> Present(t, h))
    ensures RawScore(t) == RawScore(s) + Weight(g)
    ensures Score(t) == if RawScore(s) + Weight(g) > 99 then 99 else RawScore(s) + Weight(g)
  {
    var f, h := ContributionIn(s), ContributionIn(t);
    forall k | k != g ensures f(k) == h(k) {
      assert Present(s, k) <==> Present(t, k);
    }
    SumChangesOne(f, h, g);
    assert f(g) == 0 && h(g) == Weight(g);
    WeightIsPositive(g);
  }

  lemma WeightIsPositive(g: Signal)
    ensures 10 <= Weight(g) <= 55
  {
  }

  lemma {:induction false} NoSignalScoresOne(s: Session)
    ensures RawScore(s) == 0 <==> forall g :: !Present(s, g)
    ensures Score(s) == 1 <==> forall g :: !Present(s, g)
  {
    var none := (g: Signal) => 0;
    SumIsMonotone(none, ContributionIn(s));
    if g :| Present(s, g) {
      WeightIsPositive(g);
      assert ContributionIn(s)(g) == Weight(g);
    } else {
      SumIsMonotone(ContributionIn(s), none);
    }
  }

  /** More signals never lower the score, and no signal counts for less than its weight. */
  lemma {:induction false} ScoreIsMonotone(s: Session, t: Session)
    requires forall g :: Present(s, g) ==> Present(t, g)
    ensures Score(s) <= Score(t)
    ensures forall g :: Present(t, g) ==> Weight(g) <= Score(t)
  {
    SumIsMonotone(ContributionIn(s), ContributionIn(t));
    forall g | Present(t, g) ensures Weight(g) <= Score(t) {
      WeightIsPositive(g);
      assert ContributionIn(t)(g) == Weight(g);
    }
  }

  predicate HasPrimaryCue(s: Session) {
    s.CueCount() > 0
  }

  /** The reason names the most pressing cue, or else the first session state that applies. */
  function ReasonOf(s: Session): ReasonKind {
    if s.awaitingUserCues > 0 then ReasonAwaitingUser
    else if s.commitReadyCues > 0 then ReasonCommitReady
    else if s.validationMissingCues > 0 then ReasonValidationMissing
    else if s.dirtyCheckMissingCues > 0 then ReasonDirtyCheckMissing
    else if s.state == Attention then ReasonNeedsInput
    else if s.state == Error then ReasonError
    else if s.commitCandidate then ReasonCommitReady
    else if s.restState == Sleeping then ReasonSleeping
    else if s.IdleAgentCanAcceptInput() then ReasonNeedsInput
    else if Unverified(s) then ReasonUntrustedState
    else if s.isStale then ReasonStale
    else if s.transport != Healthy then ReasonTransport
    else if s.state == Busy then ReasonBusy
    else ReasonIdle
  }

  function ToneOf(s: Session): Tone {
    if HasPrimaryCue(s) || s.state == Error || Score(s) >= 70 then Danger
    else if Score(s) >= 35 || s.commitCandidate || s.restState == Sleeping || s.IdleAgentCanAcceptInput() then Warning
    else if s.state == Busy then Working
    else Quiet
  }

  function PressureOf(s: Session): Pressure {
    Pressure(Score(s), ReasonOf(s), ToneOf(s), s.HasInputSignal(),
      s.commitReadyCues > 0 || s.commitCandidate, s.CueCount())
  }

  predicate IsInboxCandidate(s: Session) {
    s.id != "attention-group" && s.tmuxName != "swimmers-attention" && s.state != Exited && s.NeedsAttention()
  }

  function InboxItemOf(s: Session): InboxItem {
    InboxItem(s.id, s.repoKey, s.repoLabel, s.TargetKey(), s.TargetLabel(), PressureOf(s),
              s.scope == Remote || SplitRemoteSessionId(s.id).Some?, s.IsDegraded(), s.isStale, s.transport,
              s.lastActivity)
  }

  function SessionView(s: Session, batchSendIds: seq<string>): PressureSession {
    PressureSession(s.id, s.repoKey, s.repoLabel, PressureOf(s), batchSendIds)
  }

  function SendIds(m: map<string, seq<string>>, id: string): seq<string> {
    if id in m then m[id] else []
  }

  function ViewWith(m: map<string, seq<string>>): Session -> PressureSession {
    (s: Session) => SessionView(s, SendIds(m, s.id))
  }

  // ----- orders

  predicate PressureFirst(a: PressureSession, b: PressureSession) {
    a.pressure.score > b.pressure.score || (a.pressure.score == b.pressure.score && StringLe(a.id, b.id))
  }

  function ReasonRank(kind: ReasonKind): nat {
    match kind
    case ReasonAwaitingUser => 5
    case ReasonCommitReady => 4
    case ReasonValidationMissing | ReasonDirtyCheckMissing | ReasonNeedsInput => 3
    case ReasonError => 2
    case ReasonSleeping | ReasonUntrustedState | ReasonStale | ReasonTransport => 1
    case ReasonBusy | ReasonIdle => 0
  }

  /** Healthy before degraded, then higher score, higher reason rank, later activity, smaller id. */
  predicate InboxFirst(a: InboxItem, b: InboxItem) {
    if a.degraded != b.degraded then b.degraded
    else if a.pressure.score != b.pressure.score then a.pressure.score > b.pressure.score
    else if ReasonRank(a.pressure.reason) != ReasonRank(b.pressure.reason) then
      ReasonRank(a.pressure.reason) > ReasonRank(b.pressure.reason)
    else if a.lastActivity != b.lastActivity then StringLe(b.lastActivity, a.lastActivity)
    else StringLe(a.id, b.id)
  }

  predicate RepoFirst(a: RepoPressure, b: RepoPressure) {
    a.score > b.score || (a.score == b.score && StringLe(a.repoLabel, b.repoLabel))
  }

  lemma {:induction false} ResponseOrders()
    ensures TotalPreorder(PressureFirst) && TotalPreorder(RepoFirst)
  {
    StringOrder();
  }

  lemma {:induction false} InboxOrder()
    ensures TotalPreorder(InboxFirst)
  {
    StringOrder();
    forall a, b, c | InboxFirst(a, b) && InboxFirst(b, c) ensures InboxFirst(a, c) {
    }
  }

  // ----- summaries

  function MaxScore(sessions: seq<Session>): nat {
    if sessions == [] then 0
    else
      var rest := MaxScore(sessions[..|sessions| - 1]);
      var last := Score(sessions[|sessions| - 1]);
      if last > rest then last else rest
  }

  function CueTotal(sessions: seq<Session>): nat {
    if sessions == [] then 0 else CueTotal(sessions[..|sessions| - 1]) + sessions[|sessions| - 1].CueCount()
  }

  lemma MaxScoreIsPositive(sessions: seq<Session>)
    requires sessions != []
    ensures MaxScore(sessions) >= Score(sessions[|sessions| - 1]) >= 1
  {
  }

  lemma {:induction false} MaxScoreMeaning(sessions: seq<Session>)
    ensures forall s :: s in sessions ==> Score(s) <= MaxScore(sessions)
    ensures sessions != [] ==> exists s :: s in sessions && Score(s) == MaxScore(sessions)
  {
    if sessions != [] {
      var n := |sessions| - 1;
      var before, last := sessions[..n], sessions[n];
      MaxScoreMeaning(before);
      LastOrBefore(sessions);
      assert MaxScore(sessions) == if Score(last) > MaxScore(before) then Score(last) else MaxScore(before);
      if Score(last) > MaxScore(before) {
        assert last in sessions;
      } else {
        MaxScoreIsPositive(sessions);
        var s :| s in before && Score(s) == MaxScore(before);
        assert s in sessions;
      }
    }
  }

  lemma {:induction false} CueTotalAppend(a: seq<Session>, b: seq<Session>)
    ensures CueTotal(a + b) == CueTotal(a) + CueTotal(b)
  {
    if b == [] {
      assert a + b == a;
    } else {
      var n := |b| - 1;
      assert (a + b)[..|a + b| - 1] == a + b[..n];
      CueTotalAppend(a, b[..n]);
    }
  }

  lemma {:induction false} CueTotalPermutes(a: seq<Session>, b: seq<Session>)
    requires multiset(a) == multiset(b)
    ensures CueTotal(a) == CueTotal(b)
  {
    if a == [] {
      assert |multiset(b)| == |b|;
    } else {
      var j := TakeOut(a, b);
      CueTotalPermutes(a[1..], b[..j] + b[j + 1..]);
      CueTotalAppend(a[..1], a[1..]);
      CueTotalAppend(b[..j], b[j + 1..]);
      CueTotalAppend(b[..j], [b[j]]);
      CueTotalAppend(b[..j] + [b[j]], b[j + 1..]);
      assert a[..1] == [b[j]] && a == a[..1] + a[1..];
    }
  }

  lemma MaxScorePermutes(a: seq<Session>, b: seq<Session>)
    requires multiset(a) == multiset(b)
    ensures MaxScore(a) == MaxScore(b)
  {
    MaxScoreMeaning(a);
    MaxScoreMeaning(b);
    SameMembers(a, b);
  }

  // ----- repositories

  function InRepo(repoKey: string): Session -> bool {
    (s: Session) => s.repoKey == repoKey
  }

  function RepoSessions(sessions: seq<Session>, repoKey: string): seq<Session> {
    Filter(InRepo(repoKey), sessions)
  }

  /**
   * The entry of a repository: its sessions in input order, their top score, and why the first of the top ones has it.
   */
  ghost predicate Describes(entry: RepoPressure, members: seq<Session>) {
    && members != []
    && entry.repoKey == members[0].repoKey
    && entry.repoLabel == members[0].repoLabel
    && entry.sessionIds == Map(IdOf, members)
    && entry.score == MaxScore(members)
    && TopReason(entry, members)
  }

  ghost predicate FirstWithScore(members: seq<Session>, i: int, score: nat) {
    && 0 <= i < |members| && Score(members[i]) == score
    && forall j :: 0 <= j < i ==> Score(members[j]) < score
  }

  ghost predicate EntryOf(repos: map<string, RepoPressure>, members: seq<Session>, repoKey: string) {
    (repoKey in repos <==> members != []) && (repoKey in repos ==> Describes(repos[repoKey], members))
  }

  ghost predicate ReposOf(repos: map<string, RepoPressure>, sessions: seq<Session>) {
    forall k :: EntryOf(repos, RepoSessions(sessions, k), k)
  }

  function Joined(entry: RepoPressure, s: Session): RepoPressure {
    var grown := entry.(sessionIds := entry.sessionIds + [s.id]);
    if Score(s) > entry.score then grown.(score := Score(s), reason := Some(ReasonOf(s))) else grown
  }

  function UpdateRepo(repos: map<string, RepoPressure>, s: Session): map<string, RepoPressure> {
    var entry := if s.repoKey in repos then repos[s.repoKey] else RepoPressure(s.repoKey, s.repoLabel, 0, None, []);
    repos[s.repoKey := Joined(entry, s)]
  }

  ghost predicate TopReason(entry: RepoPressure, members: seq<Session>) {
    exists top :: FirstWithScore(members, top, entry.score) && entry.reason == Some(ReasonOf(members[top]))
  }

  lemma {:induction false} NewTopScore(members: seq<Session>, s: Session)
    requires Score(s) > MaxScore(members)
    ensures FirstWithScore(members + [s], |members|, Score(s))
  {
    MaxScoreMeaning(members);
    forall j | 0 <= j < |members| ensures Score((members + [s])[j]) < Score(s) {
      assert members[j] in members;
    }
  }

  lemma {:induction false} JoinedTopReason(entry: RepoPressure, members: seq<Session>, s: Session)
    requires entry.score == MaxScore(members)
    requires members != [] ==> TopReason(entry, members)
    ensures Joined(entry, s).score == MaxScore(members + [s]) && TopReason(Joined(entry, s), members + [s])
  {
    var grown := members + [s];
    assert grown[..|members|] == members;
    if Score(s) > entry.score {
      NewTopScore(members, s);
    } else {
      var top :| FirstWithScore(members, top, entry.score) && entry.reason == Some(ReasonOf(members[top]));
      assert FirstWithScore(grown, top, entry.score);
    }
  }

  lemma {:induction false} JoinedIds(entry: RepoPressure, members: seq<Session>, s: Session)
    requires entry.sessionIds == Map(IdOf, members)
    ensures Joined(entry, s).sessionIds == Map(IdOf, members + [s])
  {
    MapAppend(IdOf, members, [s]);
    assert Map(IdOf, [s]) == [s.id];
  }

  lemma {:induction false} JoinedDescribes(entry: RepoPressure, members: seq<Session>, s: Session)
    requires members == [] ==> entry == RepoPressure(s.repoKey, s.repoLabel, 0, None, [])
    requires members != [] ==> Describes(entry, members)
    ensures Describes(Joined(entry, s), members + [s])
  {
    JoinedIds(entry, members, s);
    JoinedTopReason(entry, members, s);
    assert (members + [s])[0] == if members == [] then s else members[0];
  }

  lemma UpdateRepoKeeps(repos: map<string, RepoPressure>, sessions: seq<Session>, s: Session)
    requires ReposOf(repos, sessions)
    ensures ReposOf(UpdateRepo(repos, s), sessions + [s])
  {
    forall k ensures EntryOf(UpdateRepo(repos, s), RepoSessions(sessions + [s], k), k) {
      var members := RepoSessions(sessions, k);
      assert EntryOf(repos, members, k);
      FilterAppend(InRepo(k), sessions, [s]);
      assert RepoSessions(sessions + [s], k) == members + if k == s.repoKey then [s] else [];
      UpdateEntry(repos, members, s, k);
    }
  }

  lemma {:induction false} UpdateEntry(repos: map<string, RepoPressure>, members: seq<Session>, s: Session, k: string)
    requires EntryOf(repos, members, k)
    ensures EntryOf(UpdateRepo(repos, s), members + if k == s.repoKey then [s] else [], k)
  {
    if k == s.repoKey {
      JoinedDescribes(if k in repos then repos[k] else RepoPressure(s.repoKey, s.repoLabel, 0, None, []), members, s);
    } else {
      assert members + [] == members;
    }
  }

  /** Taking the values of the map gives each repository's entry once. */
  lemma ValuesAreEntries(repos: map<string, RepoPressure>, keys: seq<string>, values: seq<RepoPressure>)
    requires forall k :: k in repos ==> repos[k].repoKey == k
    requires NoDup(keys) && |values| == |keys| && forall k :: k in keys <==> k in repos
    requires forall i :: 0 <= i < |keys| ==> values[i] == repos[keys[i]]
    ensures NoDup(values) && forall v :: v in values <==> v.repoKey in repos && repos[v.repoKey] == v
  {
    forall i | 0 <= i < |keys| ensures values[i].repoKey == keys[i] {
      assert keys[i] in repos;
    }
    forall v: RepoPressure | v.repoKey in repos && repos[v.repoKey] == v ensures v in values {
      var i :| 0 <= i < |keys| && keys[i] == v.repoKey;
      assert values[i] == v;
    }
  }

  /** What the response holds, for the batch-send map `m` that was used. */
  ghost predicate IsResponse(sessions: seq<Session>, m: map<string, seq<string>>, r: Response) {
    && r.sessions == SortBy(PressureFirst, Map(ViewWith(m), sessions))
    && r.inbox == SortBy(InboxFirst, InboxOf(sessions))
    && r.summary == SummaryOf(sessions, m)
    && Sorted(RepoFirst, r.repos)
    && NoDup(r.repos)
    && (forall v :: v in r.repos ==> Describes(v, RepoSessions(sessions, v.repoKey)))
    && (forall s :: s in sessions ==> exists v :: v in r.repos && v.repoKey == s.repoKey)
  }

  function SummaryOf(sessions: seq<Session>, m: map<string, seq<string>>): Summary {
    Summary(MaxScore(sessions), CueTotal(sessions), GroupCount(m))
  }

  function UpdateSummary(summary: Summary, pressure: Pressure): Summary {
    summary.(maxScore := if pressure.score > summary.maxScore then pressure.score else summary.maxScore,
             actionCues := summary.actionCues + pressure.cueCount)
  }

  function InboxOf(sessions: seq<Session>): seq<InboxItem> {
    Map(InboxItemOf, Filter(IsInboxCandidate, sessions))
  }

  lemma SummaryGrows(pushed: seq<Session>, s: Session, m: map<string, seq<string>>)
    ensures SummaryOf(pushed + [s], m) == UpdateSummary(SummaryOf(pushed, m), PressureOf(s))
  {
    assert (pushed + [s])[..|pushed|] == pushed;
  }

  lemma {:induction false} InboxGrows(pushed: seq<Session>, s: Session)
    ensures InboxOf(pushed + [s]) == InboxOf(pushed) + if IsInboxCandidate(s) then [InboxItemOf(s)] else []
  {
    var candidates, added := Filter(IsInboxCandidate, pushed), if IsInboxCandidate(s) then [s] else [];
    FilterAppend(IsInboxCandidate, pushed, [s]);
    MapAppend(InboxItemOf, candidates, added);
    assert Filter(IsInboxCandidate, [s]) == added;
  }

  lemma {:induction false} ViewsGrow(pushed: seq<Session>, s: Session, m: map<string, seq<string>>)
    ensures SummaryOf(pushed + [s], m) == UpdateSummary(SummaryOf(pushed, m), PressureOf(s))
    ensures Map(ViewWith(m), pushed + [s]) == Map(ViewWith(m), pushed) + [SessionView(s, SendIds(m, s.id))]
    ensures InboxOf(pushed + [s]) == InboxOf(pushed) + if IsInboxCandidate(s) then [InboxItemOf(s)] else []
  {
    SummaryGrows(pushed, s, m);
    MapAppend(ViewWith(m), pushed, [s]);
    InboxGrows(pushed, s);
  }

  /** The four views in the making. */
  datatype Views = Views(summary: Summary, repos: map<string, RepoPressure>, sessions: seq<PressureSession>,
    inbox: seq<InboxItem>)

  /** They are those of the sessions taken in so far. */
  ghost predicate AreViewsOf(v: Views, pushed: seq<Session>, m: map<string, seq<string>>) {
    && v.summary == SummaryOf(pushed, m)
    && ReposOf(v.repos, pushed)
    && v.sessions == Map(ViewWith(m), pushed)
    && v.inbox == InboxOf(pushed)
  }

  function WithItem(inbox: seq<InboxItem>, s: Session): seq<InboxItem> {
    if IsInboxCandidate(s) then inbox + [InboxItemOf(s)] else inbox
  }

  function Step(v: Views, s: Session, m: map<string, seq<string>>): Views {
    Views(UpdateSummary(v.summary, PressureOf(s)), UpdateRepo(v.repos, s),
      v.sessions + [SessionView(s, SendIds(m, s.id))], WithItem(v.inbox, s))
  }

  function Start(m: map<string, seq<string>>): Views {
    Views(Summary(0, 0, GroupCount(m)), map[], [], [])
  }

  /** One pass over the sessions. */
  function Built(pushed: seq<Session>, m: map<string, seq<string>>): Views {
    if pushed == [] then Start(m) else Step(Built(pushed[..|pushed| - 1], m), pushed[|pushed| - 1], m)
  }

  lemma {:induction false} BuiltMore(pushed: seq<Session>, s: Session, m: map<string, seq<string>>)
    ensures Built(pushed + [s], m) == Step(Built(pushed, m), s, m)
  {
    assert (pushed + [s])[..|pushed|] == pushed;
  }

  lemma {:induction false} StartIsViews(m: map<string, seq<string>>)
    ensures AreViewsOf(Start(m), [], m)
  {
  }

  lemma {:induction false} StepIsViews(v: Views, pushed: seq<Session>, s: Session, m: map<string, seq<string>>)
    requires AreViewsOf(v, pushed, m)
    ensures AreViewsOf(Step(v, s, m), pushed + [s], m)
  {
    UpdateRepoKeeps(v.repos, pushed, s);
    ViewsGrow(pushed, s, m);
    assert v.inbox + [] == v.inbox;
  }

  /** The pass builds the four views of all the sessions. */
  lemma {:induction false} BuiltAreViews(pushed: seq<Session>, m: map<string, seq<string>>)
    ensures AreViewsOf(Built(pushed, m), pushed, m)
  {
    if pushed == [] {
      StartIsViews(m);
    } else {
      var before, s := pushed[..|pushed| - 1], pushed[|pushed| - 1];
      BuiltAreViews(before, m);
      StepIsViews(Built(before, m), before, s, m);
      LastIsAppended(pushed);
    }
  }

  lemma {:induction false} ReposAreKeyed(repos: map<string, RepoPressure>, pushed: seq<Session>)
    requires ReposOf(repos, pushed)
    ensures forall k :: k in repos ==> repos[k].repoKey == k
  {
    forall k | k in repos ensures repos[k].repoKey == k {
      var members := RepoSessions(pushed, k);
      assert EntryOf(repos, members, k);
      FilterMembers(InRepo(k), pushed);
      assert Describes(repos[k], members) && members[0] in members;
    }
  }

  lemma {:induction false} RepoHasEntry(repos: map<string, RepoPressure>, pushed: seq<Session>, s: Session)
    requires ReposOf(repos, pushed) && s in pushed
    ensures s.repoKey in repos
  {
    FilterMembers(InRepo(s.repoKey), pushed);
    assert s in RepoSessions(pushed, s.repoKey);
    assert EntryOf(repos, RepoSessions(pushed, s.repoKey), s.repoKey);
  }

  lemma {:induction false} EntryDescribes(repos: map<string, RepoPressure>, pushed: seq<Session>, v: RepoPressure)
    requires ReposOf(repos, pushed) && v.repoKey in repos && repos[v.repoKey] == v
    ensures Describes(v, RepoSessions(pushed, v.repoKey))
  {
    assert EntryOf(repos, RepoSessions(pushed, v.repoKey), v.repoKey);
  }

  /** Sorted, the entries are still each repository's, once. */
  lemma {:induction false} SortedEntries(
      repos: map<string, RepoPressure>, pushed: seq<Session>, values: seq<RepoPressure>)
    requires ReposOf(repos, pushed) && (forall k :: k in repos ==> repos[k].repoKey == k)
    requires NoDup(values) && forall v :: v in values <==> v.repoKey in repos && repos[v.repoKey] == v
    ensures var sorted := SortBy(RepoFirst, values);
      && Sorted(RepoFirst, sorted) && NoDup(sorted)
      && (forall v :: v in sorted ==> Describes(v, RepoSessions(pushed, v.repoKey)))
      && (forall s :: s in pushed ==> exists v :: v in sorted && v.repoKey == s.repoKey)
  {
    var sorted := SortBy(RepoFirst, values);
    ResponseOrders();
    SortByIsSorted(RepoFirst, values);
    SameMembers(sorted, values);
    NoDupPermutes(values, sorted);
    forall v | v in sorted ensures Describes(v, RepoSessions(pushed, v.repoKey)) {
      EntryDescribes(repos, pushed, v);
    }
    forall s | s in pushed ensures exists v :: v in sorted && v.repoKey == s.repoKey {
      RepoHasEntry(repos, pushed, s);
      assert repos[s.repoKey] in sorted;
    }
  }

  class ResponseBuilder {
    var summary: Summary
    var repos: map<string, RepoPressure>
    var sessions: seq<PressureSession>
    var inbox: seq<InboxItem>

    /** The sessions taken in so far, and the batch-send map their lists come from. */
    ghost var pushed: seq<Session>
    const sendMap: map<string, seq<string>>

    ghost predicate Valid()
      reads this
    {
      Views(summary, repos, sessions, inbox) == Built(pushed, sendMap)
    }

    constructor (m: map<string, seq<string>>)
      ensures Valid() && pushed == [] && sendMap == m
    {
      summary := Summary(0, 0, GroupCount(m));
      repos, sessions, inbox := map[], [], [];
      pushed, sendMap := [], m;
    }

    method Push(s: Session, batchSendIds: seq<string>)
      requires Valid() && batchSendIds == SendIds(sendMap, s.id)
      modifies this
      ensures Valid() && pushed == old(pushed) + [s]
    {
      BuiltMore(pushed, s, sendMap);
      ghost var next := Step(Views(summary, repos, sessions, inbox), s, sendMap);
      summary := UpdateSummary(summary, PressureOf(s));
      repos := UpdateRepo(repos, s);
      if IsInboxCandidate(s) {
        inbox := inbox + [InboxItemOf(s)];
      }
      sessions := sessions + [SessionView(s, batchSendIds)];
      pushed := pushed + [s];
      assert Views(summary, repos, sessions, inbox) == next;
    }

    method PushAll(all: seq<Session>)
      requires Valid() && pushed == []
      modifies this
      ensures Valid() && pushed == all
    {
      var i := 0;
      while i < |all|
        invariant i <= |all| && Valid() && pushed == all[..i]
      {
        PrefixGrows(all, i);
        var batchSendIds := SendIds(sendMap, all[i].id);
        Push(all[i], batchSendIds);
        i := i + 1;
      }
      assert all[..|all|] == all;
    }

    method Finish() returns (r: Response)
      requires Valid()
      ensures IsResponse(pushed, sendMap, r)
    {
      BuiltAreViews(pushed, sendMap);
      ReposAreKeyed(repos, pushed);
      var values, keys := IntoValues(repos);
      ValuesAreEntries(repos, keys, values);
      SortedEntries(repos, pushed, values);
      r := Response(SortBy(PressureFirst, sessions), SortBy(RepoFirst, values), summary, SortBy(InboxFirst, inbox));
    }
  }

  /** `r` is an answer that some iteration order of the hash maps gives. */
  ghost predicate ResponseTo(sessions: seq<Session>, r: Response) {
    exists m :: CollectsAdvertised(sessions, m) && IsResponse(sessions, m, r)
  }

  method BuildOperatorPressureResponse(sessions: seq<Session>) returns (r: Response)
    ensures ResponseTo(sessions, r)
  {
    var batchSendMap := SendMap(sessions);
    r := BuildWith(sessions, batchSendMap);
  }

  method BuildWith(sessions: seq<Session>, m: map<string, seq<string>>) returns (r: Response)
    ensures IsResponse(sessions, m, r)
  {
    var builder := new ResponseBuilder(m);
    builder.PushAll(sessions);
    r := builder.Finish();
  }

  // ----- what the response says, and that it does not depend on any order

  function ViewIn(sessions: seq<Session>): Session -> PressureSession {
    (s: Session) => SessionView(s, SendList(sessions, s))
  }

  /** With distinct ids nothing ties in the session list. */
  lemma {:induction false} ViewsAreStrict(sessions: seq<Session>, m: map<string, seq<string>>)
    requires DistinctIds(sessions)
    ensures Strict(PressureFirst, Map(ViewWith(m), sessions))
  {
    var views := Map(ViewWith(m), sessions);
    MapElements(ViewWith(m), sessions);
    forall i, j | 0 <= i < |views| && 0 <= j < |views| && PressureFirst(views[i], views[j]) &&
      PressureFirst(views[j], views[i])
      ensures views[i] == views[j]
    {
      StringLeTotal(views[i].id, views[j].id);
      assert sessions[i].id == sessions[j].id;
    }
  }

  /** With distinct ids nothing ties in the inbox. */
  lemma {:induction false} ItemsAreStrict(candidates: seq<Session>)
    requires DistinctIds(candidates)
    ensures Strict(InboxFirst, Map(InboxItemOf, candidates))
  {
    var items := Map(InboxItemOf, candidates);
    MapElements(InboxItemOf, candidates);
    forall i, j | 0 <= i < |items| && 0 <= j < |items| && InboxFirst(items[i], items[j]) &&
      InboxFirst(items[j], items[i])
      ensures items[i] == items[j]
    {
      StringLeTotal(items[i].id, items[j].id);
      StringLeTotal(items[i].lastActivity, items[j].lastActivity);
      assert candidates[i].id == candidates[j].id;
    }
  }

  lemma ListsForgetsOrder(a: seq<Session>, b: seq<Session>, batchId: string, id: string)
    requires multiset(a) == multiset(b) && DistinctIds(a)
    ensures Lists(a, batchId, id) <==> Lists(b, batchId, id)
  {
    MembersPermute(a, b, batchId);
  }

  /** A batch that lists an id in one arrangement provides its entry in the map of the other. */
  lemma {:induction false} EntryFollows(
      a: seq<Session>, b: seq<Session>, mb: map<string, seq<string>>, c: string, id: string)
    requires DistinctIds(a) && multiset(a) == multiset(b)
    requires CollectsAdvertised(b, mb) && Lists(a, c, id)
    ensures id in mb && Some(mb[id]) == AdvertisableIds(Members(a, c))
  {
    ListsForgetsOrder(a, b, c, id);
    var d :| Lists(b, d, id) && Some(mb[id]) == AdvertisableIds(Members(b, d));
    ListsForgetsOrder(a, b, d, id);
    MembersPermute(a, b, d);
    OneListPerId(a, c, d, id);
  }

  /** The entry of an id is the same in both maps. */
  lemma {:induction false} EntryAgrees(
      a: seq<Session>, b: seq<Session>, ma: map<string, seq<string>>, mb: map<string, seq<string>>, id: string)
    requires DistinctIds(a) && multiset(a) == multiset(b)
    requires CollectsAdvertised(a, ma) && CollectsAdvertised(b, mb)
    ensures SameEntry(ma, mb, id)
  {
    if id in ma {
      var c :| Lists(a, c, id) && Some(ma[id]) == AdvertisableIds(Members(a, c));
      EntryFollows(a, b, mb, c, id);
    } else if id in mb {
      DistinctIdsPermutes(a, b);
      var c :| Lists(b, c, id);
      EntryFollows(b, a, ma, c, id);
      assert false;
    }
  }

  lemma OneListPerId(sessions: seq<Session>, c: string, d: string, id: string)
    requires DistinctIds(sessions) && Lists(sessions, c, id) && Lists(sessions, d, id)
    ensures c == d
  {
    AdvertisedAreMembers(sessions, c);
    var s :| s in sessions && IsMember(s, c) && s.id == id;
    ListedByOwnBatch(sessions, s);
  }

  /** Two batch-send maps of the same sessions are the same map. */
  lemma {:induction false} SendMapsAgree(
      a: seq<Session>, b: seq<Session>, ma: map<string, seq<string>>, mb: map<string, seq<string>>)
    requires DistinctIds(a) && multiset(a) == multiset(b)
    requires CollectsAdvertised(a, ma) && CollectsAdvertised(b, mb)
    ensures ma == mb
  {
    forall id ensures SameEntry(ma, mb, id) {
      EntryAgrees(a, b, ma, mb, id);
    }
    SameEntriesSameMap(ma, mb);
  }

  predicate SameEntry(ma: map<string, seq<string>>, mb: map<string, seq<string>>, id: string) {
    (id in ma <==> id in mb) && (id in ma ==> ma[id] == mb[id])
  }

  lemma SameEntriesSameMap(ma: map<string, seq<string>>, mb: map<string, seq<string>>)
    requires forall id :: SameEntry(ma, mb, id)
    ensures ma == mb
  {
    forall id ensures id in ma <==> id in mb {
      assert SameEntry(ma, mb, id);
    }
    forall id | id in ma ensures ma[id] == mb[id] {
      assert SameEntry(ma, mb, id);
    }
  }

  lemma {:induction false} ViewsAgree(
      a: seq<Session>, b: seq<Session>, ma: map<string, seq<string>>, mb: map<string, seq<string>>, ra: Response,
      rb: Response)
    requires DistinctIds(a) && multiset(a) == multiset(b)
    requires CollectsAdvertised(a, ma) && CollectsAdvertised(b, mb)
    requires IsResponse(a, ma, ra) && IsResponse(b, mb, rb)
    ensures ra.sessions == rb.sessions && ra.inbox == rb.inbox && ra.summary == rb.summary
  {
    SendMapsAgree(a, b, ma, mb);
    MaxScorePermutes(a, b);
    CueTotalPermutes(a, b);
    ViewsAreStrict(a, ma);
    FilterKeepsDistinctIds(IsInboxCandidate, a);
    ItemsAreStrict(Filter(IsInboxCandidate, a));
    ResponseOrders();
    InboxOrder();
    MapPermutes(ViewWith(ma), a, b);
    SortByForgetsOrder(PressureFirst, Map(ViewWith(ma), a), Map(ViewWith(ma), b));
    FilterPermutes(IsInboxCandidate, a, b);
    MapPermutes(InboxItemOf, Filter(IsInboxCandidate, a), Filter(IsInboxCandidate, b));
    SortByForgetsOrder(InboxFirst, Map(InboxItemOf, Filter(IsInboxCandidate, a)),
      Map(InboxItemOf, Filter(IsInboxCandidate, b)));
  }

  /** The session list, inbox and summary depend on neither input order nor hash-map iteration order. */
  lemma {:induction false} ResponseForgetsOrder(a: seq<Session>, b: seq<Session>, ra: Response, rb: Response)
    requires DistinctIds(a) && multiset(a) == multiset(b) && ResponseTo(a, ra) && ResponseTo(b, rb)
    ensures ra.sessions == rb.sessions && ra.inbox == rb.inbox && ra.summary == rb.summary
  {
    var ma :| CollectsAdvertised(a, ma) && IsResponse(a, ma, ra);
    var mb :| CollectsAdvertised(b, mb) && IsResponse(b, mb, rb);
    ViewsAgree(a, b, ma, mb, ra, rb);
  }

  function ViewId(v: PressureSession): string {
    v.id
  }

  function ItemId(v: InboxItem): string {
    v.id
  }

  /** With distinct ids, attaching the lists from the map is attaching each session's own batch-send list. */
  lemma {:induction false} ViewsCarrySendLists(sessions: seq<Session>, m: map<string, seq<string>>)
    requires DistinctIds(sessions) && CollectsAdvertised(sessions, m)
    ensures Map(ViewWith(m), sessions) == Map(ViewIn(sessions), sessions)
  {
    MapElements(ViewWith(m), sessions);
    MapElements(ViewIn(sessions), sessions);
    forall s | s in sessions ensures SendIds(m, s.id) == SendList(sessions, s) {
      OwnEntry(sessions, m, s);
    }
  }

  lemma {:induction false} OwnEntry(sessions: seq<Session>, m: map<string, seq<string>>, s: Session)
    requires DistinctIds(sessions) && CollectsAdvertised(sessions, m) && s in sessions
    ensures SendIds(m, s.id) == SendList(sessions, s)
  {
    ListedByOwnBatch(sessions, s);
    if s.id in m {
      var b :| Lists(sessions, b, s.id) && Some(m[s.id]) == AdvertisableIds(Members(sessions, b));
    }
  }

  /** The session list is a permutation of the sessions' views: higher score first, then the smaller id. */
  lemma {:induction false} SessionListMeaning(sessions: seq<Session>, m: map<string, seq<string>>, r: Response)
    requires DistinctIds(sessions) && CollectsAdvertised(sessions, m) && IsResponse(sessions, m, r)
    ensures multiset(r.sessions) == multiset(Map(ViewIn(sessions), sessions))
    ensures forall i, j :: 0 <= i < j < |r.sessions| ==>
      var x, y := r.sessions[i], r.sessions[j];
      && x.id != y.id
      && (x.pressure.score > y.pressure.score || (x.pressure.score == y.pressure.score && StringLe(x.id, y.id)))
  {
    var views := Map(ViewIn(sessions), sessions);
    ViewsCarrySendLists(sessions, m);
    ResponseOrders();
    SortByIsSorted(PressureFirst, views);
    SortedViewsDiffer(sessions, r.sessions);
  }

  lemma SortedViewsDiffer(sessions: seq<Session>, sorted: seq<PressureSession>)
    requires DistinctIds(sessions) && multiset(sorted) == multiset(Map(ViewIn(sessions), sessions))
    ensures forall i, j :: 0 <= i < j < |sorted| ==> sorted[i].id != sorted[j].id
  {
    var views := Map(ViewIn(sessions), sessions);
    MapPermutes(ViewId, views, sorted);
    ViewIdsDiffer(sessions);
    NoDupPermutes(Map(ViewId, views), Map(ViewId, sorted));
    MapElements(ViewId, sorted);
    forall i, j | 0 <= i < j < |sorted| ensures sorted[i].id != sorted[j].id {
      assert Map(ViewId, sorted)[i] != Map(ViewId, sorted)[j];
    }
  }

  lemma ViewIdsDiffer(sessions: seq<Session>)
    requires DistinctIds(sessions)
    ensures NoDup(Map(ViewId, Map(ViewIn(sessions), sessions)))
  {
    MapElements(ViewIn(sessions), sessions);
    MapElements(ViewId, Map(ViewIn(sessions), sessions));
  }

  lemma {:induction false} SortedItems(sessions: seq<Session>, inbox: seq<InboxItem>)
    requires DistinctIds(sessions) && inbox == SortBy(InboxFirst, InboxOf(sessions))
    ensures forall item :: item in inbox <==> exists s :: s in sessions && IsInboxCandidate(s) && item == InboxItemOf(s)
    ensures forall i, j :: 0 <= i < j < |inbox| ==> InboxFirst(inbox[i], inbox[j]) && inbox[i].id != inbox[j].id
  {
    var items := InboxOf(sessions);
    InboxOrder();
    SortByIsSorted(InboxFirst, items);
    SameMembers(items, inbox);
    ItemsAreCandidates(sessions);
    MapElements(ItemId, inbox);
    MapPermutes(ItemId, items, inbox);
    NoDupPermutes(Map(ItemId, items), Map(ItemId, inbox));
    forall i, j | 0 <= i < j < |inbox| ensures inbox[i].id != inbox[j].id {
      assert Map(ItemId, inbox)[i] != Map(ItemId, inbox)[j];
    }
  }

  /**
   * The inbox is exactly the attention candidates, each once: healthy ones first, then the higher score, the reason of
   * higher rank, the later activity, and the smaller id.
   */
  lemma {:induction false} InboxMeaning(sessions: seq<Session>, m: map<string, seq<string>>, r: Response)
    requires DistinctIds(sessions) && CollectsAdvertised(sessions, m) && IsResponse(sessions, m, r)
    ensures forall item :: item in r.inbox <==>
      exists s :: s in sessions && IsInboxCandidate(s) && item == InboxItemOf(s)
    ensures forall i, j :: 0 <= i < j < |r.inbox| ==>
      var x, y := r.inbox[i], r.inbox[j];
      var p, q := x.pressure, y.pressure;
      && x.id != y.id
      && (x.degraded ==> y.degraded)
      && (x.degraded == y.degraded ==> p.score >= q.score)
      && (x.degraded == y.degraded && p.score == q.score ==> ReasonRank(p.reason) >= ReasonRank(q.reason))
      && (x.degraded == y.degraded && p.score == q.score && ReasonRank(p.reason) == ReasonRank(q.reason) ==>
           (x.lastActivity != y.lastActivity && StringLe(y.lastActivity, x.lastActivity))
           || (x.lastActivity == y.lastActivity && StringLe(x.id, y.id)))
  {
    SortedItems(sessions, r.inbox);
  }

  /** Two entries that describe the same sessions are the same entry. */
  lemma DescribedOnce(v: RepoPressure, w: RepoPressure, members: seq<Session>)
    requires Describes(v, members) && Describes(w, members)
    ensures v == w
  {
    var i :| FirstWithScore(members, i, v.score) && v.reason == Some(ReasonOf(members[i]));
    var j :| FirstWithScore(members, j, w.score) && w.reason == Some(ReasonOf(members[j]));
    assert i == j;
  }

  /** An entry names the sessions of its repository in listing order, their top score, and why the first has it. */
  ghost predicate IsRepoEntry(v: RepoPressure, sessions: seq<Session>) {
    var members := RepoSessions(sessions, v.repoKey);
    && v.sessionIds == Map(IdOf, members)
    && (forall s :: s in members <==> s in sessions && s.repoKey == v.repoKey)
    && members != [] && v.repoLabel == members[0].repoLabel
    && exists top ::
         && 0 <= top < |members| && v.score == Score(members[top]) && v.reason == Some(ReasonOf(members[top]))
         && (forall k :: 0 <= k < |members| ==> Score(members[k]) <= v.score)
         && (forall k :: 0 <= k < top ==> Score(members[k]) < v.score)
  }

  ghost predicate HasEntry(repos: seq<RepoPressure>, repoKey: string) {
    exists v :: v in repos && v.repoKey == repoKey
  }

  /** One entry for each repository: higher score first, and of equal scores the smaller label. */
  ghost predicate InRepoOrder(repos: seq<RepoPressure>) {
    forall i, j :: 0 <= i < j < |repos| ==>
      && repos[i].repoKey != repos[j].repoKey
      && (repos[i].score > repos[j].score
          || (repos[i].score == repos[j].score && StringLe(repos[i].repoLabel, repos[j].repoLabel)))
  }

  /** Every listed session's repository has its one entry, and every entry is that of such a repository. */
  lemma {:induction false} RepoListMeaning(sessions: seq<Session>, m: map<string, seq<string>>, r: Response)
    requires IsResponse(sessions, m, r)
    ensures InRepoOrder(r.repos)
    ensures forall s :: s in sessions ==> HasEntry(r.repos, s.repoKey)
    ensures forall v :: v in r.repos ==> IsRepoEntry(v, sessions)
  {
    forall v | v in r.repos ensures IsRepoEntry(v, sessions) {
      EntryIsRepoEntry(v, sessions);
    }
    KeysDiffer(sessions, r.repos);
  }

  lemma KeysDiffer(sessions: seq<Session>, repos: seq<RepoPressure>)
    requires NoDup(repos) && forall v :: v in repos ==> Describes(v, RepoSessions(sessions, v.repoKey))
    ensures forall i, j :: 0 <= i < j < |repos| ==> repos[i].repoKey != repos[j].repoKey
  {
    forall i, j | 0 <= i < j < |repos| ensures repos[i].repoKey != repos[j].repoKey {
      if repos[i].repoKey == repos[j].repoKey {
        DescribedOnce(repos[i], repos[j], RepoSessions(sessions, repos[i].repoKey));
      }
    }
  }

  lemma EntryIsRepoEntry(v: RepoPressure, sessions: seq<Session>)
    requires Describes(v, RepoSessions(sessions, v.repoKey))
    ensures IsRepoEntry(v, sessions)
  {
    var members := RepoSessions(sessions, v.repoKey);
    FilterMembers(InRepo(v.repoKey), sessions);
    MaxScoreMeaning(members);
    var top :| FirstWithScore(members, top, v.score) && v.reason == Some(ReasonOf(members[top]));
    forall k | 0 <= k < |members| ensures Score(members[k]) <= v.score {
      assert members[k] in members;
    }
  }

  /** The summary counts every cue and every advertised batch, and its top score is reached and not exceeded. */
  lemma {:induction false} SummaryMeaning(sessions: seq<Session>, m: map<string, seq<string>>, r: Response)
    requires DistinctIds(sessions) && NulFree(Map(IdOf, sessions)) && CollectsAdvertised(sessions, m) &&
      IsResponse(sessions, m, r)
    ensures r.summary.batchSendGroups == |AdvertisedBatches(sessions)| && r.summary.actionCues == CueTotal(sessions)
    ensures forall s :: s in sessions ==> Score(s) <= r.summary.maxScore
    ensures sessions == [] ==> r.summary.maxScore == 0
    ensures sessions != [] ==> exists s :: s in sessions && Score(s) == r.summary.maxScore
  {
    GroupCountMeaning(sessions, m);
    MaxScoreMeaning(sessions);
  }

  lemma ItemsAreCandidates(sessions: seq<Session>)
    requires DistinctIds(sessions)
    ensures forall item :: item in InboxOf(sessions) <==>
      exists s :: s in sessions && IsInboxCandidate(s) && item == InboxItemOf(s)
    ensures NoDup(Map(ItemId, InboxOf(sessions)))
  {
    var candidates := Filter(IsInboxCandidate, sessions);
    var items := InboxOf(sessions);
    FilterKeepsDistinctIds(IsInboxCandidate, sessions);
    FilterMembers(IsInboxCandidate, sessions);
    MapElements(InboxItemOf, candidates);
    MapElements(ItemId, items);
    forall item ensures item in items <==> exists s :: s in sessions && IsInboxCandidate(s) && item == InboxItemOf(s) {
      if item in items {
        var i :| 0 <= i < |items| && items[i] == item;
        assert candidates[i] in candidates;
      }
      if s :| s in sessions && IsInboxCandidate(s) && item == InboxItemOf(s) {
        var i :| 0 <= i < |candidates| && candidates[i] == s;
        assert items[i] == item;
      }
    }
  }
}
