/** The fleet lens: an index of session buckets built in one pass, which must agree with the filter it summarises. */
module FleetLens {
  import opened Wrappers
  import opened Ordering
  import opened Seqs
  import opened Sessions

  datatype Kind = TargetKind | RepoKind | AdvisoryKind | StateKind | ReadinessKind | TransportKind

  datatype BucketKey = BucketKey(kind: Kind, key: string)

  datatype Bucket = Bucket(
    kind: Kind, key: string, title: string, count: nat, degradedCount: nat, staleCount: nat, attentionCount: nat,
    commitReadyCount: nat)

  /** An advisory with the key and the title that its fields give, where they give one. */
  datatype Advisory = Advisory(key: Option<string>, title: Option<string>, stale: bool)

  function StateKey(state: SessionState): string {
    match state
    case Idle => "idle"
    case Busy => "busy"
    case Error => "error"
    case Attention => "attention"
    case Exited => "exited"
  }

  function TransportKey(transport: TransportHealth): string {
    match transport
    case Healthy => "healthy"
    case Degraded => "degraded"
    case Overloaded => "overloaded"
    case Disconnected => "disconnected"
  }

  function ReadinessKey(s: Session): string {
    if s.NeedsAttention() then "needs_attention"
    else if s.state == Busy then "working"
    else if s.restState == Sleeping || s.restState == DeepSleep then "sleeping"
    else "quiet"
  }

  function ReadinessTitle(s: Session): string {
    if ReadinessKey(s) == "needs_attention" then "needs attention" else ReadinessKey(s)
  }

  /** The key under which a session is filed; every kind but Advisory files it exactly once. */
  function KeyOf(s: Session, kind: Kind): string {
    match kind
    case TargetKind => s.TargetKey()
    case RepoKind => s.repoKey
    case StateKind => StateKey(s.state)
    case ReadinessKind => ReadinessKey(s)
    case TransportKind => TransportKey(s.transport)
    case AdvisoryKind => ""
  }

  function TitleOf(s: Session, kind: Kind): string {
    match kind
    case TargetKind => s.TargetLabel()
    case RepoKind => s.repoLabel
    case StateKind => StateKey(s.state)
    case ReadinessKind => ReadinessTitle(s)
    case TransportKind => TransportKey(s.transport)
    case AdvisoryKind => ""
  }

  /** The filter behind the bucket matcher of a preset. */
  predicate SessionMatchesBucket(s: Session, advisories: seq<Advisory>, kind: Kind, key: string) {
    match kind
    case TargetKind => s.TargetKey() == key
    case RepoKind => s.repoKey == key
    case AdvisoryKind => exists i :: 0 <= i < |advisories| && advisories[i].key == Some(key)
    case StateKind => StateKey(s.state) == key
    case ReadinessKind => ReadinessKey(s) == key
    case TransportKind => TransportKey(s.transport) == key
  }

  function Filed(kind: Kind, key: string): Session -> bool {
    (s: Session) => KeyOf(s, kind) == key
  }

  function Matching(sessions: seq<Session>, kind: Kind, key: string): seq<Session> {
    Filter(Filed(kind, key), sessions)
  }

  predicate IsDegraded(s: Session) {
    s.IsDegraded()
  }

  predicate IsStale(s: Session) {
    s.isStale
  }

  predicate NeedsAttention(s: Session) {
    s.NeedsAttention()
  }

  predicate IsCommitCandidate(s: Session) {
    s.commitCandidate
  }

  // ----- inserting

  function EmptyBucket(kind: Kind, key: string, title: string): Bucket {
    Bucket(kind, key, title, 0, 0, 0, 0, 0)
  }

  function Added(b: Bucket, s: Session): Bucket {
    b.(count := b.count + 1,
       degradedCount := b.degradedCount + if s.IsDegraded() then 1 else 0,
       staleCount := b.staleCount + if s.isStale then 1 else 0,
       attentionCount := b.attentionCount + if s.NeedsAttention() then 1 else 0,
       commitReadyCount := b.commitReadyCount + if s.commitCandidate then 1 else 0)
  }

  type Index = map<BucketKey, Bucket>

  function InsertAt(index: Index, kind: Kind, key: string, title: string, s: Session): Index {
    var k := BucketKey(kind, key);
    index[k := Added(if k in index then index[k] else EmptyBucket(kind, key, title), s)]
  }

  function Insert(index: Index, kind: Kind, s: Session): Index {
    InsertAt(index, kind, KeyOf(s, kind), TitleOf(s, kind), s)
  }

  function InsertAdvisory(index: Index, a: Advisory): Index {
    if a.key.None? || a.title.None? then index
    else
      var k := BucketKey(AdvisoryKind, a.key.value);
      var b := if k in index then index[k] else EmptyBucket(AdvisoryKind, k.key, a.title.value);
      var stale := if a.stale then 1 else 0;
      index[k := b.(count := b.count + 1, staleCount := b.staleCount + stale, degradedCount := b.degradedCount + stale)]
  }

  /** `b` counts exactly these sessions, and bears the title of the first. */
  ghost predicate Counts(b: Bucket, kind: Kind, key: string, members: seq<Session>) {
    && members != []
    && b.kind == kind && b.key == key && b.title == TitleOf(members[0], kind)
    && b.count == |members|
    && b.degradedCount == |Filter(IsDegraded, members)|
    && b.staleCount == |Filter(IsStale, members)|
    && b.attentionCount == |Filter(NeedsAttention, members)|
    && b.commitReadyCount == |Filter(IsCommitCandidate, members)|
  }

  ghost predicate EntryCounts(index: Index, kind: Kind, key: string, members: seq<Session>) {
    && (BucketKey(kind, key) in index <==> members != [])
    && (BucketKey(kind, key) in index ==> Counts(index[BucketKey(kind, key)], kind, key, members))
  }

  /** The index holds, for the kinds in `kinds`, exactly the buckets of `sessions`. */
  ghost predicate Indexes(index: Index, kind: Kind, sessions: seq<Session>) {
    forall key :: EntryCounts(index, kind, key, Matching(sessions, kind, key))
  }

  ghost predicate WellKeyed(index: Index) {
    forall k :: k in index ==> index[k].kind == k.kind && index[k].key == k.key
  }

  lemma AddedCounts(b: Bucket, kind: Kind, key: string, members: seq<Session>, s: Session)
    requires if members == [] then b == EmptyBucket(kind, key, TitleOf(s, kind)) else Counts(b, kind, key, members)
    ensures Counts(Added(b, s), kind, key, members + [s])
  {
    FilterAppend(IsDegraded, members, [s]);
    FilterAppend(IsStale, members, [s]);
    FilterAppend(NeedsAttention, members, [s]);
    FilterAppend(IsCommitCandidate, members, [s]);
  }

  /** Inserting a session under one kind files it there, and leaves the other kinds alone. */
  lemma InsertIndexes(index: Index, kind: Kind, sessions: seq<Session>, s: Session)
    requires Indexes(index, kind, sessions)
    ensures Indexes(Insert(index, kind, s), kind, sessions + [s])
  {
    var after := Insert(index, kind, s);
    forall key ensures EntryCounts(after, kind, key, Matching(sessions + [s], kind, key)) {
      var members := Matching(sessions, kind, key);
      assert EntryCounts(index, kind, key, members);
      FilterAppend(Filed(kind, key), sessions, [s]);
      assert Matching(sessions + [s], kind, key) == members + if KeyOf(s, kind) == key then [s] else [];
      InsertEntry(index, kind, key, members, s);
    }
  }

  lemma InsertEntry(index: Index, kind: Kind, key: string, members: seq<Session>, s: Session)
    requires EntryCounts(index, kind, key, members)
    ensures EntryCounts(Insert(index, kind, s), kind, key, members + if KeyOf(s, kind) == key then [s] else [])
  {
    var k := BucketKey(kind, key);
    if KeyOf(s, kind) == key {
      AddedCounts(if k in index then index[k] else EmptyBucket(kind, key, TitleOf(s, kind)), kind, key, members, s);
    } else {
      assert members + [] == members;
    }
  }

  lemma OtherKindKeeps(index: Index, after: Index, kind: Kind, sessions: seq<Session>)
    requires Indexes(index, kind, sessions)
    requires forall key :: BucketKey(kind, key) in after <==> BucketKey(kind, key) in index
    requires forall key :: BucketKey(kind, key) in index ==> after[BucketKey(kind, key)] == index[BucketKey(kind, key)]
    ensures Indexes(after, kind, sessions)
  {
    forall key ensures EntryCounts(after, kind, key, Matching(sessions, kind, key)) {
      assert EntryCounts(index, kind, key, Matching(sessions, kind, key));
    }
  }

  lemma InsertKeepsOtherKinds(index: Index, inserted: Kind, kind: Kind, sessions: seq<Session>, s: Session)
    requires inserted != kind && Indexes(index, kind, sessions)
    ensures Indexes(Insert(index, inserted, s), kind, sessions)
  {
    OtherKindKeeps(index, Insert(index, inserted, s), kind, sessions);
  }

  function InsertAdvisories(index: Index, advisories: seq<Advisory>): Index {
    if advisories == [] then index
    else InsertAdvisory(InsertAdvisories(index, advisories[..|advisories| - 1]), advisories[|advisories| - 1])
  }

  /** All the insertions for one session, in the order in which they are made. */
  function WithSession(index: Index, s: Session, advisories: seq<Advisory>): Index {
    var named := Insert(Insert(index, TargetKind, s), RepoKind, s);
    var advised := InsertAdvisories(named, advisories);
    Insert(Insert(Insert(advised, StateKind, s), ReadinessKind, s), TransportKind, s)
  }

  lemma InsertStep(index: Index, inserted: Kind, kind: Kind, sessions: seq<Session>, s: Session)
    requires Indexes(index, kind, sessions)
    ensures Indexes(Insert(index, inserted, s), kind, if inserted == kind then sessions + [s] else sessions)
  {
    if inserted == kind {
      InsertIndexes(index, kind, sessions, s);
    } else {
      InsertKeepsOtherKinds(index, inserted, kind, sessions, s);
    }
  }

  lemma {:induction false} AdvisoriesKeep(index: Index, advisories: seq<Advisory>, kind: Kind, sessions: seq<Session>)
    requires kind != AdvisoryKind && Indexes(index, kind, sessions)
    ensures Indexes(InsertAdvisories(index, advisories), kind, sessions)
  {
    if advisories != [] {
      var n := |advisories| - 1;
      var before := InsertAdvisories(index, advisories[..n]);
      AdvisoriesKeep(index, advisories[..n], kind, sessions);
      OtherKindKeeps(before, InsertAdvisory(before, advisories[n]), kind, sessions);
    }
  }

  /** Whatever the kind, one of the insertions for a session files it, and the others do not disturb that. */
  lemma SessionIsFiled(index: Index, s: Session, advisories: seq<Advisory>, kind: Kind, sessions: seq<Session>)
    requires kind != AdvisoryKind && Indexes(index, kind, sessions)
    ensures Indexes(WithSession(index, s, advisories), kind, sessions + [s])
  {
    var grown := sessions + [s];
    var targets := if kind == TargetKind then grown else sessions;
    var repos := if kind == RepoKind then grown else targets;
    var states := if kind == StateKind then grown else repos;
    var readiness := if kind == ReadinessKind then grown else states;
    InsertStep(index, TargetKind, kind, sessions, s);
    var i1 := Insert(index, TargetKind, s);
    InsertStep(i1, RepoKind, kind, targets, s);
    var i2 := Insert(i1, RepoKind, s);
    AdvisoriesKeep(i2, advisories, kind, repos);
    var i3 := InsertAdvisories(i2, advisories);
    InsertStep(i3, StateKind, kind, repos, s);
    var i4 := Insert(i3, StateKind, s);
    InsertStep(i4, ReadinessKind, kind, states, s);
    InsertStep(Insert(i4, ReadinessKind, s), TransportKind, kind, readiness, s);
  }

  lemma {:induction false} AdvisoriesWellKeyed(index: Index, advisories: seq<Advisory>)
    requires WellKeyed(index)
    ensures WellKeyed(InsertAdvisories(index, advisories))
  {
    if advisories != [] {
      AdvisoriesWellKeyed(index, advisories[..|advisories| - 1]);
    }
  }

  lemma InsertWellKeyed(index: Index, kind: Kind, s: Session)
    requires WellKeyed(index)
    ensures WellKeyed(Insert(index, kind, s))
  {
  }

  lemma SessionWellKeyed(index: Index, s: Session, advisories: seq<Advisory>)
    requires WellKeyed(index)
    ensures WellKeyed(WithSession(index, s, advisories))
  {
    var i1 := Insert(index, TargetKind, s);
    var i2 := Insert(i1, RepoKind, s);
    var i3 := InsertAdvisories(i2, advisories);
    var i4 := Insert(i3, StateKind, s);
    InsertWellKeyed(index, TargetKind, s);
    InsertWellKeyed(i1, RepoKind, s);
    AdvisoriesWellKeyed(i2, advisories);
    InsertWellKeyed(i3, StateKind, s);
    InsertWellKeyed(i4, ReadinessKind, s);
    InsertWellKeyed(Insert(i4, ReadinessKind, s), TransportKind, s);
  }

  // ----- advisories

  /** An advisory is filed under its key, but only where it has a title too. */
  function Advises(key: string): Advisory -> bool {
    (a: Advisory) => a.key == Some(key) && a.title.Some?
  }

  predicate IsStaleAdvisory(a: Advisory) {
    a.stale
  }

  /** `b` counts exactly these advisories, stale ones as degraded too, and bears the title of the first. */
  ghost predicate CountsAdvisories(b: Bucket, key: string, members: seq<Advisory>) {
    && members != [] && members[0].title.Some?
    && b == Bucket(AdvisoryKind, key, members[0].title.value, |members|, |Filter(IsStaleAdvisory, members)|,
         |Filter(IsStaleAdvisory, members)|, 0, 0)
  }

  ghost predicate AdvisoryEntry(index: Index, key: string, members: seq<Advisory>) {
    && (BucketKey(AdvisoryKind, key) in index <==> members != [])
    && (BucketKey(AdvisoryKind, key) in index ==>
         CountsAdvisories(index[BucketKey(AdvisoryKind, key)], key, members))
  }

  ghost predicate IndexesAdvisories(index: Index, all: seq<Advisory>) {
    forall key :: AdvisoryEntry(index, key, Filter(Advises(key), all))
  }

  lemma InsertKeepsAdvisories(index: Index, kind: Kind, s: Session, all: seq<Advisory>)
    requires kind != AdvisoryKind && IndexesAdvisories(index, all)
    ensures IndexesAdvisories(Insert(index, kind, s), all)
  {
    forall key ensures AdvisoryEntry(Insert(index, kind, s), key, Filter(Advises(key), all)) {
      assert AdvisoryEntry(index, key, Filter(Advises(key), all));
    }
  }

  lemma AdvisoryIsFiled(index: Index, all: seq<Advisory>, a: Advisory)
    requires IndexesAdvisories(index, all)
    ensures IndexesAdvisories(InsertAdvisory(index, a), all + [a])
  {
    forall key ensures AdvisoryEntry(InsertAdvisory(index, a), key, Filter(Advises(key), all + [a])) {
      var members := Filter(Advises(key), all);
      assert AdvisoryEntry(index, key, members);
      FilterAppend(Advises(key), all, [a]);
      assert Filter(Advises(key), all + [a]) == members + if Advises(key)(a) then [a] else [];
      OneAdvisoryMore(index, key, members, a);
    }
  }

  lemma OneAdvisoryMore(index: Index, key: string, members: seq<Advisory>, a: Advisory)
    requires AdvisoryEntry(index, key, members)
    ensures AdvisoryEntry(InsertAdvisory(index, a), key, members + if Advises(key)(a) then [a] else [])
  {
    if Advises(key)(a) {
      FilterAppend(IsStaleAdvisory, members, [a]);
    } else {
      assert members + [] == members;
    }
  }

  lemma {:induction false} AdvisoriesAreFiled(index: Index, all: seq<Advisory>, advisories: seq<Advisory>)
    requires IndexesAdvisories(index, all)
    ensures IndexesAdvisories(InsertAdvisories(index, advisories), all + advisories)
  {
    if advisories == [] {
      assert all + advisories == all;
    } else {
      var n := |advisories| - 1;
      AdvisoriesAreFiled(index, all, advisories[..n]);
      AdvisoryIsFiled(InsertAdvisories(index, advisories[..n]), all + advisories[..n], advisories[n]);
      assert all + advisories[..n] + [advisories[n]] == all + advisories;
    }
  }

  /** The insertions of one session file its advisories, and nothing else under their kind. */
  lemma SessionAdvises(index: Index, s: Session, advisories: seq<Advisory>, all: seq<Advisory>)
    requires IndexesAdvisories(index, all)
    ensures IndexesAdvisories(WithSession(index, s, advisories), all + advisories)
  {
    var i1 := Insert(index, TargetKind, s);
    var i2 := Insert(i1, RepoKind, s);
    var i3 := InsertAdvisories(i2, advisories);
    var i4 := Insert(i3, StateKind, s);
    InsertKeepsAdvisories(index, TargetKind, s, all);
    InsertKeepsAdvisories(i1, RepoKind, s, all);
    AdvisoriesAreFiled(i2, all, advisories);
    InsertKeepsAdvisories(i3, StateKind, s, all + advisories);
    InsertKeepsAdvisories(i4, ReadinessKind, s, all + advisories);
    InsertKeepsAdvisories(Insert(i4, ReadinessKind, s), TransportKind, s, all + advisories);
  }

  /** The advisories of all the sessions, in their order. */
  function AllOf(advisories: seq<seq<Advisory>>): seq<Advisory> {
    if advisories == [] then [] else AllOf(advisories[..|advisories| - 1]) + advisories[|advisories| - 1]
  }

  // ----- building

  method InsertBucket(index: Index, kind: Kind, key: string, title: string, s: Session) returns (r: Index)
    ensures r == InsertAt(index, kind, key, title, s)
  {
    var k := BucketKey(kind, key);
    var bucket := if k in index then index[k] else EmptyBucket(kind, key, title);
    bucket := bucket.(count := bucket.count + 1);
    if s.IsDegraded() {
      bucket := bucket.(degradedCount := bucket.degradedCount + 1);
    }
    if s.isStale {
      bucket := bucket.(staleCount := bucket.staleCount + 1);
    }
    if s.NeedsAttention() {
      bucket := bucket.(attentionCount := bucket.attentionCount + 1);
    }
    if s.commitCandidate {
      bucket := bucket.(commitReadyCount := bucket.commitReadyCount + 1);
    }
    r := index[k := bucket];
  }

  method InsertSession(index: Index, s: Session, advisories: seq<Advisory>) returns (r: Index)
    ensures r == WithSession(index, s, advisories)
  {
    r := InsertBucket(index, TargetKind, s.TargetKey(), s.TargetLabel(), s);
    r := InsertBucket(r, RepoKind, s.repoKey, s.repoLabel, s);
    var named := r;
    for i := 0 to |advisories|
      invariant r == InsertAdvisories(named, advisories[..i])
    {
      assert advisories[..i + 1][..i] == advisories[..i];
      r := InsertAdvisory(r, advisories[i]);
    }
    assert advisories[..|advisories|] == advisories;
    r := InsertBucket(r, StateKind, StateKey(s.state), StateKey(s.state), s);
    r := InsertBucket(r, ReadinessKind, ReadinessKey(s), ReadinessTitle(s), s);
    r := InsertBucket(r, TransportKind, TransportKey(s.transport), TransportKey(s.transport), s);
  }

  function KindRank(kind: Kind): nat {
    match kind
    case TargetKind => 0
    case RepoKind => 1
    case AdvisoryKind => 2
    case StateKind => 3
    case ReadinessKind => 4
    case TransportKind => 5
  }

  /** By kind, then more sessions, more degraded ones, smaller title, smaller key. */
  predicate BucketFirst(a: Bucket, b: Bucket) {
    if a.kind != b.kind then KindRank(a.kind) < KindRank(b.kind)
    else if a.count != b.count then a.count > b.count
    else if a.degradedCount != b.degradedCount then a.degradedCount > b.degradedCount
    else if a.title != b.title then StringLe(a.title, b.title)
    else StringLe(a.key, b.key)
  }

  lemma BucketOrder()
    ensures TotalPreorder(BucketFirst)
  {
    StringOrder();
    forall a, b, c | BucketFirst(a, b) && BucketFirst(b, c) ensures BucketFirst(a, c) {
    }
  }

  function KeyOfBucket(b: Bucket): BucketKey {
    BucketKey(b.kind, b.key)
  }

  /** Taking the values of a well-keyed index gives each bucket once. */
  lemma ValuesAreBuckets(index: Index, keys: seq<BucketKey>, values: seq<Bucket>)
    requires WellKeyed(index) && NoDup(keys) && |values| == |keys| && forall k :: k in keys <==> k in index
    requires forall i :: 0 <= i < |keys| ==> values[i] == index[keys[i]]
    ensures forall b :: b in values <==> KeyOfBucket(b) in index && index[KeyOfBucket(b)] == b
    ensures forall i, j :: 0 <= i < j < |values| ==> KeyOfBucket(values[i]) != KeyOfBucket(values[j])
  {
    forall i | 0 <= i < |keys| ensures KeyOfBucket(values[i]) == keys[i] {
      assert keys[i] in index;
    }
    forall b | KeyOfBucket(b) in index && index[KeyOfBucket(b)] == b ensures b in values {
      var i :| 0 <= i < |keys| && keys[i] == KeyOfBucket(b);
      assert values[i] == b;
    }
  }

  /** The summary's buckets: sorted, unique, each counting exactly the sessions filed under it, and none missing. */
  ghost predicate IsIndexOf(buckets: seq<Bucket>, sessions: seq<Session>) {
    && Sorted(BucketFirst, buckets)
    && (forall i, j :: 0 <= i < j < |buckets| ==> KeyOfBucket(buckets[i]) != KeyOfBucket(buckets[j]))
    && (forall b :: b in buckets && b.kind != AdvisoryKind ==>
      Counts(b, b.kind, b.key, Matching(sessions, b.kind, b.key)))
    && (forall s, kind :: s in sessions && kind != AdvisoryKind ==> HasBucket(buckets, kind, KeyOf(s, kind)))
  }

  /** The same for the advisory buckets and the advisories. */
  ghost predicate IsAdvisoryIndexOf(buckets: seq<Bucket>, all: seq<Advisory>) {
    && (forall b :: b in buckets && b.kind == AdvisoryKind ==>
         CountsAdvisories(b, b.key, Filter(Advises(b.key), all)))
    && (forall a :: a in all && a.key.Some? && a.title.Some? ==> HasBucket(buckets, AdvisoryKind, a.key.value))
  }

  ghost predicate HasBucket(buckets: seq<Bucket>, kind: Kind, key: string) {
    exists b :: b in buckets && b.kind == kind && b.key == key
  }

  /** `advisories[i]` are those of `sessions[i]`. */
  method BuildFleetLensSummary(
      sessions: seq<Session>, advisories: seq<seq<Advisory>>) returns (totalSessions: nat, buckets: seq<Bucket>)
    requires |advisories| == |sessions|
    ensures totalSessions == |sessions| && IsIndexOf(buckets, sessions)
    ensures IsAdvisoryIndexOf(buckets, AllOf(advisories))
  {
    var index := BuildIndex(sessions, advisories);
    var values, keys := IntoValues(index);
    ValuesAreBuckets(index, keys, values);
    buckets := SortBy(BucketFirst, values);
    totalSessions := |sessions|;
    BucketOrder();
    SortByIsSorted(BucketFirst, values);
    SameMembers(buckets, values);
    SortedKeysDiffer(values, buckets);
    forall b | b in buckets && b.kind != AdvisoryKind
      ensures Counts(b, b.kind, b.key, Matching(sessions, b.kind, b.key))
    {
      assert Indexes(index, b.kind, sessions);
      assert EntryCounts(index, b.kind, b.key, Matching(sessions, b.kind, b.key));
    }
    forall s, kind | s in sessions && kind != AdvisoryKind ensures HasBucket(buckets, kind, KeyOf(s, kind)) {
      assert Indexes(index, kind, sessions);
      FilterMembers(Filed(kind, KeyOf(s, kind)), sessions);
      assert s in Matching(sessions, kind, KeyOf(s, kind));
      assert EntryCounts(index, kind, KeyOf(s, kind), Matching(sessions, kind, KeyOf(s, kind)));
      assert index[BucketKey(kind, KeyOf(s, kind))] in buckets;
    }
    AdvisoryBuckets(index, buckets, AllOf(advisories));
  }

  lemma AdvisoryBuckets(index: Index, buckets: seq<Bucket>, all: seq<Advisory>)
    requires WellKeyed(index) && IndexesAdvisories(index, all)
    requires forall b :: b in buckets <==> KeyOfBucket(b) in index && index[KeyOfBucket(b)] == b
    ensures IsAdvisoryIndexOf(buckets, all)
  {
    forall b | b in buckets && b.kind == AdvisoryKind ensures CountsAdvisories(b, b.key, Filter(Advises(b.key), all)) {
      assert AdvisoryEntry(index, b.key, Filter(Advises(b.key), all));
    }
    forall a | a in all && a.key.Some? && a.title.Some? ensures HasBucket(buckets, AdvisoryKind, a.key.value) {
      var members := Filter(Advises(a.key.value), all);
      FilterMembers(Advises(a.key.value), all);
      assert a in members && AdvisoryEntry(index, a.key.value, members);
      assert index[BucketKey(AdvisoryKind, a.key.value)] in buckets;
    }
  }

  /** The index holds exactly the buckets of `sessions`, for every kind but Advisory. */
  ghost predicate IndexesAll(index: Index, sessions: seq<Session>) {
    WellKeyed(index) && forall kind :: kind != AdvisoryKind ==> Indexes(index, kind, sessions)
  }

  lemma SessionIsIndexed(index: Index, s: Session, advisories: seq<Advisory>, sessions: seq<Session>)
    requires IndexesAll(index, sessions)
    ensures IndexesAll(WithSession(index, s, advisories), sessions + [s])
  {
    SessionWellKeyed(index, s, advisories);
    var next, grown := WithSession(index, s, advisories), sessions + [s];
    forall kind | kind != AdvisoryKind ensures Indexes(next, kind, grown) {
      SessionIsFiled(index, s, advisories, kind, sessions);
    }
  }

  method BuildIndex(sessions: seq<Session>, advisories: seq<seq<Advisory>>) returns (index: Index)
    requires |advisories| == |sessions|
    ensures IndexesAll(index, sessions) && IndexesAdvisories(index, AllOf(advisories))
  {
    index := map[];
    for i := 0 to |sessions|
      invariant IndexesAll(index, sessions[..i]) && IndexesAdvisories(index, AllOf(advisories[..i]))
    {
      SessionIsIndexed(index, sessions[i], advisories[i], sessions[..i]);
      SessionAdvises(index, sessions[i], advisories[i], AllOf(advisories[..i]));
      assert advisories[..i + 1][..i] == advisories[..i];
      PrefixGrows(sessions, i);
      index := InsertSession(index, sessions[i], advisories[i]);
    }
    assert sessions[..|sessions|] == sessions && advisories[..|advisories|] == advisories;
  }

  lemma SortedKeysDiffer(values: seq<Bucket>, sorted: seq<Bucket>)
    requires multiset(values) == multiset(sorted)
    requires forall i, j :: 0 <= i < j < |values| ==> KeyOfBucket(values[i]) != KeyOfBucket(values[j])
    ensures forall i, j :: 0 <= i < j < |sorted| ==> KeyOfBucket(sorted[i]) != KeyOfBucket(sorted[j])
  {
    MapElements(KeyOfBucket, values);
    MapElements(KeyOfBucket, sorted);
    MapPermutes(KeyOfBucket, values, sorted);
    NoDupPermutes(Map(KeyOfBucket, values), Map(KeyOfBucket, sorted));
    forall i, j | 0 <= i < j < |sorted| ensures KeyOfBucket(sorted[i]) != KeyOfBucket(sorted[j]) {
      assert Map(KeyOfBucket, sorted)[i] != Map(KeyOfBucket, sorted)[j];
    }
  }

  // ----- the index agrees with the filter

  /** Every session: the filter by itself. */
  predicate Any(s: Session) {
    true
  }

  /** How many sessions with property `p` the filter lets through; `advisories` are the sessions', in the same order. */
  function HitCount(
      p: Session -> bool, sessions: seq<Session>, advisories: seq<seq<Advisory>>, kind: Kind, key: string): nat
    requires |advisories| == |sessions|
  {
    if sessions == [] then 0
    else
      (if SessionMatchesBucket(sessions[0], advisories[0], kind, key) && p(sessions[0]) then 1 else 0)
      + HitCount(p, sessions[1..], advisories[1..], kind, key)
  }

  /** For every kind but Advisory the filter lets through the sessions filed under its key, and those alone. */
  lemma FilterIsFiling(s: Session, advisories: seq<Advisory>, kind: Kind, key: string)
    requires kind != AdvisoryKind
    ensures SessionMatchesBucket(s, advisories, kind, key) <==> Filed(kind, key)(s)
  {
  }

  lemma {:induction false} FilterAgrees(
      p: Session -> bool, sessions: seq<Session>, advisories: seq<seq<Advisory>>, kind: Kind, key: string)
    requires |advisories| == |sessions| && kind != AdvisoryKind
    ensures HitCount(p, sessions, advisories, kind, key) == |Filter(p, Matching(sessions, kind, key))|
  {
    if sessions != [] {
      FilterAgrees(p, sessions[1..], advisories[1..], kind, key);
      FilterIsFiling(sessions[0], advisories[0], kind, key);
      var rest := Matching(sessions[1..], kind, key);
      if Filed(kind, key)(sessions[0]) {
        assert Matching(sessions, kind, key) == [sessions[0]] + rest;
        FilterAppend(p, [sessions[0]], rest);
      }
    }
  }

  lemma {:induction false} FilterAny(members: seq<Session>)
    ensures Filter(Any, members) == members
  {
    if members != [] {
      FilterAny(members[1..]);
      assert members == [members[0]] + members[1..];
    }
  }

  /** All five counts of a bucket are those of the sessions that its own filter lets through. */
  lemma {:induction false} BucketCountsItsFilter(
      buckets: seq<Bucket>, sessions: seq<Session>, advisories: seq<seq<Advisory>>, b: Bucket)
    requires |advisories| == |sessions| && IsIndexOf(buckets, sessions) && b in buckets && b.kind != AdvisoryKind
    ensures b.count == HitCount(Any, sessions, advisories, b.kind, b.key) > 0
    ensures b.degradedCount == HitCount(IsDegraded, sessions, advisories, b.kind, b.key)
    ensures b.staleCount == HitCount(IsStale, sessions, advisories, b.kind, b.key)
    ensures b.attentionCount == HitCount(NeedsAttention, sessions, advisories, b.kind, b.key)
    ensures b.commitReadyCount == HitCount(IsCommitCandidate, sessions, advisories, b.kind, b.key)
  {
    var members := Matching(sessions, b.kind, b.key);
    assert Counts(b, b.kind, b.key, members);
    FilterAny(members);
    FilterAgrees(Any, sessions, advisories, b.kind, b.key);
    FilterAgrees(IsDegraded, sessions, advisories, b.kind, b.key);
    FilterAgrees(IsStale, sessions, advisories, b.kind, b.key);
    FilterAgrees(NeedsAttention, sessions, advisories, b.kind, b.key);
    FilterAgrees(IsCommitCandidate, sessions, advisories, b.kind, b.key);
  }

  /** The counts of one kind, added up. */
  function CountsOf(buckets: seq<Bucket>, kind: Kind): nat {
    if buckets == [] then 0
    else (if buckets[0].kind == kind then buckets[0].count else 0) + CountsOf(buckets[1..], kind)
  }

  /** The same sum with the counts taken from the sessions. */
  function FiledUnder(buckets: seq<Bucket>, kind: Kind, sessions: seq<Session>): nat {
    if buckets == [] then 0
    else
      (if buckets[0].kind == kind then |Matching(sessions, kind, buckets[0].key)| else 0)
      + FiledUnder(buckets[1..], kind, sessions)
  }

  function Hits(buckets: seq<Bucket>, kind: Kind, key: string): nat {
    if buckets == [] then 0
    else (if buckets[0].kind == kind && buckets[0].key == key then 1 else 0) + Hits(buckets[1..], kind, key)
  }

  lemma {:induction false} OneMoreSession(buckets: seq<Bucket>, kind: Kind, sessions: seq<Session>, s: Session)
    ensures FiledUnder(buckets, kind, sessions + [s]) ==
      FiledUnder(buckets, kind, sessions) + Hits(buckets, kind, KeyOf(s, kind))
  {
    if buckets != [] {
      OneMoreSession(buckets[1..], kind, sessions, s);
      FilterAppend(Filed(kind, buckets[0].key), sessions, [s]);
    }
  }

  lemma {:induction false} UniqueHit(buckets: seq<Bucket>, kind: Kind, key: string)
    requires forall i, j :: 0 <= i < j < |buckets| ==> KeyOfBucket(buckets[i]) != KeyOfBucket(buckets[j])
    ensures Hits(buckets, kind, key) == if HasBucket(buckets, kind, key) then 1 else 0
  {
    if buckets != [] {
      UniqueHit(buckets[1..], kind, key);
      assert forall b :: b in buckets <==> b == buckets[0] || b in buckets[1..];
      if b :| b in buckets[1..] && b.kind == kind && b.key == key {
        var j :| 0 <= j < |buckets[1..]| && buckets[1..][j] == b;
        assert KeyOfBucket(buckets[0]) != KeyOfBucket(buckets[j + 1]);
      }
    }
  }

  lemma {:induction false} FiledUnderIsTotal(buckets: seq<Bucket>, kind: Kind, sessions: seq<Session>)
    requires forall i, j :: 0 <= i < j < |buckets| ==> KeyOfBucket(buckets[i]) != KeyOfBucket(buckets[j])
    requires forall s :: s in sessions ==> HasBucket(buckets, kind, KeyOf(s, kind))
    ensures FiledUnder(buckets, kind, sessions) == |sessions|
  {
    if sessions == [] {
      NothingFiled(buckets, kind);
    } else {
      var n := |sessions| - 1;
      assert sessions == sessions[..n] + [sessions[n]];
      FiledUnderIsTotal(buckets, kind, sessions[..n]);
      OneMoreSession(buckets, kind, sessions[..n], sessions[n]);
      UniqueHit(buckets, kind, KeyOf(sessions[n], kind));
    }
  }

  lemma {:induction false} NothingFiled(buckets: seq<Bucket>, kind: Kind)
    ensures FiledUnder(buckets, kind, []) == 0
  {
    if buckets != [] {
      NothingFiled(buckets[1..], kind);
    }
  }

  lemma {:induction false} CountsAreFiled(buckets: seq<Bucket>, kind: Kind, sessions: seq<Session>)
    requires forall b :: b in buckets && b.kind == kind ==> b.count == |Matching(sessions, kind, b.key)|
    ensures CountsOf(buckets, kind) == FiledUnder(buckets, kind, sessions)
  {
    if buckets != [] {
      assert forall b :: b in buckets[1..] ==> b in buckets;
      CountsAreFiled(buckets[1..], kind, sessions);
    }
  }

  /**
   * For every kind but Advisory the counts add up to the number of sessions: each session is in one bucket of the kind.
   */
  lemma CountsAddUp(buckets: seq<Bucket>, sessions: seq<Session>, kind: Kind)
    requires IsIndexOf(buckets, sessions) && kind != AdvisoryKind
    ensures CountsOf(buckets, kind) == |sessions|
  {
    forall b | b in buckets && b.kind == kind ensures b.count == |Matching(sessions, kind, b.key)| {
      assert Counts(b, b.kind, b.key, Matching(sessions, b.kind, b.key));
    }
    CountsAreFiled(buckets, kind, sessions);
    FiledUnderIsTotal(buckets, kind, sessions);
  }
}
