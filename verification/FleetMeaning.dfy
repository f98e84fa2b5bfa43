/** What the fleet lens shows, on the fields of buckets and sessions. */
module FleetMeaning {
  import opened Wrappers
  import opened Text
  import opened Ordering
  import opened Seqs
  import opened Sessions
  import opened FleetLens

  /**
   * The buckets of one kind stand together, the kinds in a fixed order. Within a kind the fullest come first, then
   * those with more degraded sessions, then the smaller title, then the smaller key.
   */
  lemma BucketsAreOrdered(buckets: seq<Bucket>, sessions: seq<Session>, i: int, j: int)
    requires IsIndexOf(buckets, sessions) && 0 <= i < j < |buckets|
    ensures var a, b := buckets[i], buckets[j];
      && (a.kind == TransportKind ==> b.kind == TransportKind)
      && (a.kind == ReadinessKind ==> b.kind == ReadinessKind || b.kind == TransportKind)
      && (a.kind == StateKind ==> b.kind == StateKind || b.kind == ReadinessKind || b.kind == TransportKind)
      && (a.kind == AdvisoryKind ==> b.kind != TargetKind && b.kind != RepoKind)
      && (a.kind == RepoKind ==> b.kind != TargetKind)
      && (a.kind == b.kind ==>
           && a.key != b.key && a.count >= b.count
           && (a.count == b.count ==> a.degradedCount >= b.degradedCount)
           && (a.count == b.count && a.degradedCount == b.degradedCount ==>
                StringLe(a.title, b.title) && (a.title == b.title ==> StringLe(a.key, b.key))))
  {
    assert BucketFirst(buckets[i], buckets[j]);
    assert KeyOfBucket(buckets[i]) != KeyOfBucket(buckets[j]);
    StringOrder();
  }

  // ----- who shares a bucket

  datatype Readiness = WantsAttention | Works | Sleeps | IsQuiet

  function ReadinessOf(s: Session): Readiness {
    if s.state == Attention || s.commitCandidate || s.awaitingUserCues > 0 || s.commitReadyCues > 0
       || s.validationMissingCues > 0 || s.dirtyCheckMissingCues > 0
    then WantsAttention
    else if s.state == Busy then Works
    else if s.restState == Sleeping || s.restState == DeepSleep then Sleeps
    else IsQuiet
  }

  /** Two sessions share the bucket of a kind exactly when they agree in what the kind is about. */
  lemma SameBucketMeaning(s: Session, t: Session)
    ensures KeyOf(s, StateKind) == KeyOf(t, StateKind) <==> s.state == t.state
    ensures KeyOf(s, TransportKind) == KeyOf(t, TransportKind) <==> s.transport == t.transport
    ensures KeyOf(s, RepoKind) == KeyOf(t, RepoKind) <==> s.repoKey == t.repoKey
    ensures KeyOf(s, ReadinessKind) == KeyOf(t, ReadinessKind) <==> ReadinessOf(s) == ReadinessOf(t)
  {
    StatesDiffer(s.state, t.state);
    TransportsDiffer(s.transport, t.transport);
    ReadinessDiffers(s, t);
  }

  lemma StatesDiffer(a: SessionState, b: SessionState)
    ensures StateKey(a) == StateKey(b) <==> a == b
  {
    assert StateKey(Idle)[0] == 'i' && StateKey(Busy)[0] == 'b' && StateKey(Error)[1] == 'r';
    assert StateKey(Attention)[0] == 'a' && StateKey(Exited)[1] == 'x';
    assert StateKey(Error)[0] == 'e' && StateKey(Exited)[0] == 'e';
  }

  lemma TransportsDiffer(a: TransportHealth, b: TransportHealth)
    ensures TransportKey(a) == TransportKey(b) <==> a == b
  {
    assert TransportKey(Healthy)[0] == 'h' && TransportKey(Overloaded)[0] == 'o';
    assert TransportKey(Degraded)[0] == 'd' && TransportKey(Disconnected)[0] == 'd';
    assert TransportKey(Degraded)[1] == 'e' && TransportKey(Disconnected)[1] == 'i';
  }

  lemma ReadinessText(s: Session)
    ensures ReadinessKey(s)[0] ==
      match ReadinessOf(s) case WantsAttention => 'n' case Works => 'w' case Sleeps => 's' case IsQuiet => 'q'
    ensures ReadinessKey(s) ==
      match ReadinessOf(s)
      case WantsAttention => "needs_attention"
      case Works => "working"
      case Sleeps => "sleeping"
      case IsQuiet => "quiet"
  {
  }

  lemma ReadinessDiffers(s: Session, t: Session)
    ensures ReadinessKey(s) == ReadinessKey(t) <==> ReadinessOf(s) == ReadinessOf(t)
  {
    ReadinessText(s);
    ReadinessText(t);
  }

  /** Buckets are titled by their key, but for repositories and the session that wants attention. */
  lemma TitleMeaning(s: Session)
    ensures TitleOf(s, StateKind) == KeyOf(s, StateKind) && TitleOf(s, TransportKind) == KeyOf(s, TransportKind)
    ensures TitleOf(s, RepoKind) == s.repoLabel
    ensures TitleOf(s, ReadinessKind) ==
      if ReadinessOf(s) == WantsAttention then "needs attention" else KeyOf(s, ReadinessKind)
  {
    ReadinessText(s);
  }

  /**
   * Sessions of this machine share one target bucket. A remote one is filed under the first of its names that is not
   * blank, its target id before its host, and titled by its host before its target id.
   */
  lemma SameTargetMeaning(s: Session)
    ensures s.scope == Local ==> KeyOf(s, TargetKind) == "local"
    ensures s.scope == Remote ==>
      var names := [s.targetId, s.displayHost, s.targetLabel];
      && (forall i :: IsFirstNonEmpty(names, i) ==> KeyOf(s, TargetKind) == Trim(names[i]))
      && ((forall i :: 0 <= i < 3 ==> Trim(names[i]) == "") ==> KeyOf(s, TargetKind) == "remote")
    ensures s.scope == Local ==> TitleOf(s, TargetKind) == "local"
    ensures s.scope == Remote ==>
      var names := [s.displayHost, s.targetLabel, s.targetId];
      && (forall i :: IsFirstNonEmpty(names, i) ==> TitleOf(s, TargetKind) == Trim(names[i]))
      && ((forall i :: 0 <= i < 3 ==> Trim(names[i]) == "") ==> TitleOf(s, TargetKind) == "remote")
  {
  }

  // ----- advisories

  /** The sessions that a matcher lets through for advisory `key` are those with an advisory of that key. */
  lemma {:induction false} SomeSessionAdvises(
      sessions: seq<Session>, advisories: seq<seq<Advisory>>, key: string)
    requires |advisories| == |sessions|
    ensures HitCount(Any, sessions, advisories, AdvisoryKind, key) > 0 <==>
      exists i, k :: 0 <= i < |advisories| && 0 <= k < |advisories[i]| && advisories[i][k].key == Some(key)
  {
    if sessions != [] {
      SomeSessionAdvises(sessions[1..], advisories[1..], key);
      if i, k :| 0 <= i < |advisories| && 0 <= k < |advisories[i]| && advisories[i][k].key == Some(key) {
        if i > 0 {
          assert advisories[1..][i - 1][k].key == Some(key);
        }
      }
      var rest: seq<seq<Advisory>> := advisories[1..];
      if i: int, k: int :| 0 <= i < |rest| && 0 <= k < |rest[i]| && rest[i][k].key == Some(key) {
        assert advisories[i + 1][k].key == Some(key);
      }
    }
  }

  lemma {:induction false} OriginOf(advisories: seq<seq<Advisory>>, a: Advisory) returns (i: nat, k: nat)
    requires a in AllOf(advisories)
    ensures i < |advisories| && k < |advisories[i]| && advisories[i][k] == a
  {
    var n := |advisories| - 1;
    if a in advisories[n] {
      i := n;
      k :| 0 <= k < |advisories[n]| && advisories[n][k] == a;
    } else {
      i, k := OriginOf(advisories[..n], a);
    }
  }

  /** An advisory bucket counts advisories, at least one, and its matcher lets some session through. */
  lemma {:induction false} AdvisoryBucketHasHits(
      buckets: seq<Bucket>, sessions: seq<Session>, advisories: seq<seq<Advisory>>, b: Bucket)
    requires |advisories| == |sessions| && IsAdvisoryIndexOf(buckets, AllOf(advisories))
    requires b in buckets && b.kind == AdvisoryKind
    ensures b.count == |Filter(Advises(b.key), AllOf(advisories))| > 0
    ensures HitCount(Any, sessions, advisories, AdvisoryKind, b.key) > 0
  {
    var members := Filter(Advises(b.key), AllOf(advisories));
    assert CountsAdvisories(b, b.key, members);
    FilterMembers(Advises(b.key), AllOf(advisories));
    assert members[0] in members;
    var i, k := OriginOf(advisories, members[0]);
    SomeSessionAdvises(sessions, advisories, b.key);
  }
}
