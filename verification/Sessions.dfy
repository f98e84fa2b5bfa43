/** The fields of a session summary that pressure, batch sending and the fleet lens look at. */
module Sessions {
  import opened Wrappers
  import opened Text
  import opened SessionIds

  datatype SessionState = Idle | Busy | Error | Attention | Exited
  datatype ThoughtState = ThoughtActive | ThoughtHolding | ThoughtSleeping
  datatype RestState = RestActive | Drowsy | Sleeping | DeepSleep
  datatype TransportHealth = Healthy | Degraded | Overloaded | Disconnected
  datatype Confidence = Low | Medium | High
  /** The agent tools that accept operator input while idle; any other tool name is `OtherTool`. */
  datatype Tool = NoTool | Codex | ClaudeCode | Amp | OpenCode | Aider | Goose | Cline | Cursor | OtherTool
  datatype Scope = Local | Remote
  datatype Batch = Batch(id: string, index: nat)

  /**
   * `repoKey` and `repoLabel` stand for what the label helpers derive from the working directory.
   * Action cues are counted by kind, and a command and an observation time are only known to be there or not.
   */
  datatype Session = Session(
    id: string,
    tmuxName: string,
    state: SessionState,
    hasCommand: bool,
    observed: bool,
    confidence: Confidence,
    tool: Tool,
    thoughtState: ThoughtState,
    restState: RestState,
    commitCandidate: bool,
    awaitingUserCues: nat,
    commitReadyCues: nat,
    validationMissingCues: nat,
    dirtyCheckMissingCues: nat,
    isStale: bool,
    transport: TransportHealth,
    lastActivity: string,
    repoKey: string,
    repoLabel: string,
    batch: Option<Batch>,
    scope: Scope,
    targetId: string,
    targetLabel: string,
    displayHost: string)
  {
    function CueCount(): nat {
      awaitingUserCues + commitReadyCues + validationMissingCues + dirtyCheckMissingCues
    }

    predicate IsDegraded() {
      isStale || transport != Healthy
    }

    predicate NeedsAttention() {
      state == Attention || commitCandidate || CueCount() > 0
    }

    predicate IdleAgentCanAcceptInput() {
      state == Idle && !hasCommand && thoughtState != ThoughtActive && !tool.NoTool? && !tool.OtherTool?
    }

    predicate HasInputSignal() {
      awaitingUserCues > 0 || restState == Sleeping || state == Attention || IdleAgentCanAcceptInput()
    }

    /** Ready to receive a message that is sent to its whole batch. */
    predicate ReadyForGroupInput() {
      !isStale && transport == Healthy && observed && state != Exited && restState != DeepSleep && HasInputSignal()
    }

    function TargetKey(): string {
      if scope == Remote
      then FirstNonEmpty([targetId, displayHost, targetLabel], "remote")
      else "local"
    }

    function TargetLabel(): string {
      if scope == Remote
      then FirstNonEmpty([displayHost, targetLabel, targetId], "remote")
      else "local"
    }

    /** Where a group message to this session would be delivered. */
    function SendScope(): string {
      match SplitRemoteSessionId(id)
      case None => "local"
      case Some(pair) =>
        var target := Trim(targetId);
        "remote:" + if scope == Remote && target != [] && target != "local" then target else pair.0
    }
  }

  function FirstNonEmpty(values: seq<string>, default: string): (r: string)
    ensures (forall i :: 0 <= i < |values| ==> Trim(values[i]) == "") ==> r == default
    ensures forall i :: IsFirstNonEmpty(values, i) ==> r == Trim(values[i])
  {
    if values == [] then default
    else if Trim(values[0]) != [] then Trim(values[0])
    else FirstNonEmpty(values[1..], default)
  }

  predicate IsFirstNonEmpty(values: seq<string>, i: int) {
    0 <= i < |values| && Trim(values[i]) != "" && forall j :: 0 <= j < i ==> Trim(values[j]) == ""
  }

  function IdOf(s: Session): string {
    s.id
  }

  /** Session ids are unique in a listing. */
  ghost predicate DistinctIds(sessions: seq<Session>) {
    forall i, j :: 0 <= i < j < |sessions| ==> sessions[i].id != sessions[j].id
  }
}
