/** What the pressure of a session says about its signals, and who is in the inbox and in the send lists. */
module PressureMeaning {
  import opened Wrappers
  import opened Seqs
  import opened Sessions
  import opened SessionIds
  import opened BatchSend
  import opened OperatorPressure

  // ----- the reason

  /** The signals in the order in which they are asked for a reason. Deep sleep alone gives none. */
  function PlaceOf(g: Signal): nat {
    match g
    case AwaitingUserCue => 0
    case CommitReadyCue => 1
    case ValidationMissingCue => 2
    case DirtyCheckMissingCue => 3
    case AttentionState => 4
    case ErrorState => 5
    case CommitCandidateSignal => 6
    case SleepingAgent => 7
    case IdleAgentReady => 8
    case UnverifiedState => 9
    case StaleSignal => 10
    case UnhealthyTransport => 11
    case BusyState => 12
    case DeepSleepState => 13
  }

  function ReasonFor(g: Signal): ReasonKind {
    match g
    case AwaitingUserCue => ReasonAwaitingUser
    case CommitReadyCue | CommitCandidateSignal => ReasonCommitReady
    case ValidationMissingCue => ReasonValidationMissing
    case DirtyCheckMissingCue => ReasonDirtyCheckMissing
    case AttentionState | IdleAgentReady => ReasonNeedsInput
    case ErrorState => ReasonError
    case SleepingAgent => ReasonSleeping
    case UnverifiedState => ReasonUntrustedState
    case StaleSignal => ReasonStale
    case UnhealthyTransport => ReasonTransport
    case BusyState => ReasonBusy
    case DeepSleepState => ReasonIdle
  }

  /** The agents that take input while they are idle. */
  predicate IsAgent(tool: Tool) {
    tool == Codex || tool == ClaudeCode || tool == Amp || tool == OpenCode || tool == Aider || tool == Goose
    || tool == Cline || tool == Cursor
  }

  lemma SignalFields(s: Session)
    ensures Present(s, AwaitingUserCue) <==> s.awaitingUserCues > 0
    ensures Present(s, CommitReadyCue) <==> s.commitReadyCues > 0
    ensures Present(s, ValidationMissingCue) <==> s.validationMissingCues > 0
    ensures Present(s, DirtyCheckMissingCue) <==> s.dirtyCheckMissingCues > 0
    ensures Present(s, AttentionState) <==> s.state == Attention
    ensures Present(s, ErrorState) <==> s.state == Error
    ensures Present(s, CommitCandidateSignal) <==> s.commitCandidate
    ensures Present(s, SleepingAgent) <==> s.restState == Sleeping
    ensures Present(s, IdleAgentReady) <==> s.IdleAgentCanAcceptInput()
    ensures Present(s, IdleAgentReady) <==>
      s.state == Idle && !s.hasCommand && s.thoughtState != ThoughtActive && IsAgent(s.tool)
    ensures Present(s, DeepSleepState) <==> s.restState == DeepSleep
    ensures Present(s, UnverifiedState) <==> Unverified(s)
    ensures Present(s, UnverifiedState) <==> !s.observed || s.confidence != High
    ensures Present(s, StaleSignal) <==> s.isStale
    ensures Present(s, UnhealthyTransport) <==> s.transport != Healthy
    ensures Present(s, BusyState) <==> s.state == Busy
  {
  }

  /** The reason is that of the first signal present. */
  lemma ReasonMeaning(s: Session, g: Signal)
    requires Present(s, g) && forall h :: Present(s, h) ==> PlaceOf(g) <= PlaceOf(h)
    ensures ReasonOf(s) == ReasonFor(g)
  {
    SignalFields(s);
  }

  /** There is no reason exactly where there is no signal but deep sleep. */
  lemma IdleMeaning(s: Session)
    ensures ReasonOf(s) == ReasonIdle <==> forall g :: Present(s, g) ==> g == DeepSleepState
  {
    SignalFields(s);
  }

  /** A session with one signal alone scores what that signal weighs. */
  lemma OneSignalScores(s: Session, g: Signal)
    requires forall h :: Present(s, h) <==> h == g
    ensures Score(s) ==
      match g
      case AwaitingUserCue => 55
      case CommitReadyCue => 45
      case ValidationMissingCue => 40
      case DirtyCheckMissingCue => 35
      case AttentionState => 45
      case BusyState => 12
      case ErrorState => 55
      case SleepingAgent => 35
      case IdleAgentReady => 35
      case DeepSleepState => 20
      case CommitCandidateSignal => 25
      case UnverifiedState => 15
      case StaleSignal => 10
      case UnhealthyTransport => 20
  {
    OnlyItsWeight(s, g);
  }

  lemma OnlyItsWeight(s: Session, g: Signal)
    requires forall h :: Present(s, h) <==> h == g
    ensures Score(s) == Weight(g)
  {
    var none := (h: Signal) => 0;
    SumChangesOne(none, ContributionIn(s), g);
    WeightIsPositive(g);
  }

  // ----- the tone

  function Alarm(tone: Tone): nat {
    match tone
    case Quiet => 0
    case Working => 1
    case Warning => 2
    case Danger => 3
  }

  /** More signals never make a session look calmer. */
  lemma ToneIsMonotone(s: Session, t: Session)
    requires forall g :: Present(s, g) ==> Present(t, g)
    ensures Alarm(ToneOf(s)) <= Alarm(ToneOf(t))
  {
    ScoreIsMonotone(s, t);
    CuesArePresent(s);
    CuesArePresent(t);
    assert Present(s, ErrorState) ==> Present(t, ErrorState);
    assert Present(s, CommitCandidateSignal) ==> Present(t, CommitCandidateSignal);
    assert Present(s, SleepingAgent) ==> Present(t, SleepingAgent);
    assert Present(s, IdleAgentReady) ==> Present(t, IdleAgentReady);
    assert Present(s, BusyState) ==> Present(t, BusyState);
  }

  predicate IsCue(g: Signal) {
    g == AwaitingUserCue || g == CommitReadyCue || g == ValidationMissingCue || g == DirtyCheckMissingCue
  }

  lemma CuesArePresent(s: Session)
    ensures HasPrimaryCue(s) <==> exists g :: IsCue(g) && Present(s, g)
  {
    assert Present(s, AwaitingUserCue) <==> s.awaitingUserCues > 0;
    assert Present(s, CommitReadyCue) <==> s.commitReadyCues > 0;
    assert Present(s, ValidationMissingCue) <==> s.validationMissingCues > 0;
    assert Present(s, DirtyCheckMissingCue) <==> s.dirtyCheckMissingCues > 0;
    assert IsCue(AwaitingUserCue) && IsCue(CommitReadyCue);
    assert IsCue(ValidationMissingCue) && IsCue(DirtyCheckMissingCue);
  }

  /** A cue or an error alone is a danger, and so is any score of 70; a score of 35 is worth a warning. */
  lemma ToneMeaning(s: Session)
    ensures ToneOf(s) == Danger <==> Score(s) >= 70 || exists g :: (IsCue(g) || g == ErrorState) && Present(s, g)
    ensures ToneOf(s) == Quiet ==>
      Score(s) < 35 && forall g :: Present(s, g) ==>
        g == UnverifiedState || g == StaleSignal || g == UnhealthyTransport || g == DeepSleepState
    ensures ToneOf(s) == Working ==> Score(s) < 35 && Present(s, BusyState)
  {
    CuesArePresent(s);
    ScoreIsMonotone(s, s);
    assert Present(s, ErrorState) <==> s.state == Error;
  }

  // ----- who can be messaged

  predicate AsksForInput(g: Signal) {
    g == AwaitingUserCue || g == SleepingAgent || g == AttentionState || g == IdleAgentReady
  }

  ghost predicate WantsInput(s: Session) {
    exists g :: Present(s, g) && AsksForInput(g)
  }

  /**
   * A session is ready for a message to its batch exactly when its pressure asks for input, by one of four signals,
   * and it is neither degraded nor exited nor deep asleep nor unobserved.
   */
  lemma ReadyMeaning(s: Session)
    ensures PressureOf(s).needsInput <==> WantsInput(s)
    ensures PressureOf(s).commitReady <==> Present(s, CommitReadyCue) || Present(s, CommitCandidateSignal)
    ensures PressureOf(s).cueCount ==
      s.awaitingUserCues + s.commitReadyCues + s.validationMissingCues + s.dirtyCheckMissingCues
    ensures s.ReadyForGroupInput() <==>
      WantsInput(s) && s.observed && !s.isStale && s.transport == Healthy && s.state != Exited
      && !Present(s, DeepSleepState)
  {
    SignalFields(s);
  }

  /** Whoever a list names is in the same batch, ready, of the same target, and scores 35 at least. */
  lemma ListedSessionsWantInput(sessions: seq<Session>, s: Session, t: Session)
    requires DistinctIds(sessions) && s in sessions && t in sessions && t.id in SendList(sessions, s)
    ensures t.batch.Some? && s.batch.Some? && t.batch.value.id == s.batch.value.id
    ensures WantsInput(t) && t.observed && !t.IsDegraded() && t.state != Exited && Score(t) >= 35
    ensures DeliveryTarget(t) == DeliveryTarget(s)
  {
    SendListsPartition(sessions, s);
    ReadyMeaning(t);
    ScoreIsMonotone(t, t);
    NoSendListMeaning(sessions, s);
  }

  // ----- who is in the session list

  /** The entry of a session: its own fields, its pressure, and its own batch-send list. */
  predicate IsEntryOf(v: PressureSession, sessions: seq<Session>, s: Session) {
    && v.id == s.id && v.repoKey == s.repoKey && v.repoLabel == s.repoLabel
    && v.pressure.score == Score(s) && v.pressure.reason == ReasonOf(s) && v.pressure.tone == ToneOf(s)
    && v.pressure == PressureOf(s)
    && v.batchSendIds == SendList(sessions, s)
  }

  lemma EntryMeaning(sessions: seq<Session>, s: Session)
    ensures IsEntryOf(ViewIn(sessions)(s), sessions, s)
  {
  }

  lemma ViewOf(sessions: seq<Session>, list: seq<PressureSession>, i: int)
    requires multiset(list) == multiset(Map(ViewIn(sessions), sessions)) && 0 <= i < |sessions|
    ensures exists v :: v in list && IsEntryOf(v, sessions, sessions[i])
  {
    var views := Map(ViewIn(sessions), sessions);
    MapElements(ViewIn(sessions), sessions);
    EntryMeaning(sessions, sessions[i]);
    assert views[i] in multiset(list);
  }

  lemma SessionOf(sessions: seq<Session>, list: seq<PressureSession>, v: PressureSession)
    requires multiset(list) == multiset(Map(ViewIn(sessions), sessions)) && v in list
    ensures exists s :: s in sessions && IsEntryOf(v, sessions, s)
  {
    var views := Map(ViewIn(sessions), sessions);
    MapElements(ViewIn(sessions), sessions);
    assert v in multiset(views);
    var i :| 0 <= i < |views| && views[i] == v;
    EntryMeaning(sessions, sessions[i]);
  }

  /** Every session has its entry in the list, and every entry is that of a session. */
  lemma {:induction false} ListHoldsSessions(sessions: seq<Session>, m: map<string, seq<string>>, r: Response)
    requires DistinctIds(sessions) && CollectsAdvertised(sessions, m) && IsResponse(sessions, m, r)
    ensures forall i :: 0 <= i < |sessions| ==> exists v :: v in r.sessions && IsEntryOf(v, sessions, sessions[i])
    ensures forall v :: v in r.sessions ==> exists s :: s in sessions && IsEntryOf(v, sessions, s)
  {
    SessionListMeaning(sessions, m, r);
    forall i | 0 <= i < |sessions| ensures exists v :: v in r.sessions && IsEntryOf(v, sessions, sessions[i]) {
      ViewOf(sessions, r.sessions, i);
    }
    forall v | v in r.sessions ensures exists s :: s in sessions && IsEntryOf(v, sessions, s) {
      SessionOf(sessions, r.sessions, v);
    }
  }

  // ----- who is in the inbox

  /** A session that is not one of the attention helpers and has not exited, and that asks for attention by a signal. */
  ghost predicate BelongsInInbox(s: Session) {
    && s.id != "attention-group" && s.tmuxName != "swimmers-attention" && s.state != Exited
    && exists g :: (IsCue(g) || g == AttentionState || g == CommitCandidateSignal) && Present(s, g)
  }

  lemma CandidateMeaning(s: Session)
    ensures IsInboxCandidate(s) <==> BelongsInInbox(s)
  {
    CuesArePresent(s);
    assert Present(s, AttentionState) <==> s.state == Attention;
    assert Present(s, CommitCandidateSignal) <==> s.commitCandidate;
  }

  /** What an item says about its session: whose it is, its pressure, and whether it is remote and degraded. */
  predicate IsItemOf(item: InboxItem, s: Session) {
    && item.id == s.id && item.repoKey == s.repoKey && item.repoLabel == s.repoLabel
    && item.targetKey == s.TargetKey() && item.targetLabel == s.TargetLabel() && item.pressure == PressureOf(s)
    && item.stale == s.isStale && item.transport == s.transport && item.lastActivity == s.lastActivity
    && (item.degraded <==> Present(s, StaleSignal) || Present(s, UnhealthyTransport))
    && (item.remote <==> s.scope == Remote || DeliveryTarget(s).Some?)
  }

  lemma ItemMeaning(s: Session)
    ensures IsItemOf(InboxItemOf(s), s)
  {
  }

  /** Exactly those sessions have an item in the inbox, and it is their own. */
  lemma {:induction false} InboxHoldsWhoBelongs(
      sessions: seq<Session>, m: map<string, seq<string>>, r: Response, s: Session)
    requires DistinctIds(sessions) && CollectsAdvertised(sessions, m) && IsResponse(sessions, m, r) && s in sessions
    ensures (exists item :: item in r.inbox && item.id == s.id) <==> BelongsInInbox(s)
    ensures forall item :: item in r.inbox && item.id == s.id ==> IsItemOf(item, s)
  {
    InboxMeaning(sessions, m, r);
    CandidateMeaning(s);
    ItemMeaning(s);
    OwnItem(sessions, r.inbox, s);
  }

  lemma OwnItem(sessions: seq<Session>, inbox: seq<InboxItem>, s: Session)
    requires DistinctIds(sessions) && s in sessions
    requires forall item :: item in inbox <==>
      exists t :: t in sessions && IsInboxCandidate(t) && item == InboxItemOf(t)
    ensures (exists item :: item in inbox && item.id == s.id) <==> IsInboxCandidate(s)
    ensures forall item :: item in inbox && item.id == s.id ==> item == InboxItemOf(s)
  {
    if IsInboxCandidate(s) {
      assert InboxItemOf(s) in inbox && InboxItemOf(s).id == s.id;
    }
    forall item | item in inbox && item.id == s.id ensures IsInboxCandidate(s) && item == InboxItemOf(s) {
      var t :| t in sessions && IsInboxCandidate(t) && item == InboxItemOf(t);
      assert t.id == s.id && t == s;
    }
  }
}
