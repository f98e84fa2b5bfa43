/** Batch-send groups: which ready sessions of a batch receive a group message together. */
module BatchSend {
  import opened Wrappers
  import opened Ordering
  import opened Seqs
  import opened Sessions
  import opened SessionIds
  import opened Text

  predicate IsMember(s: Session, batchId: string) {
    s.batch.Some? && s.batch.value.id == batchId && s.ReadyForGroupInput()
  }

  function MemberOf(batchId: string): Session -> bool {
    s => IsMember(s, batchId)
  }

  /** The ready sessions of one batch, in listing order. */
  function Members(sessions: seq<Session>, batchId: string): seq<Session> {
    Filter(MemberOf(batchId), sessions)
  }

  lemma MembersMeaning(sessions: seq<Session>, batchId: string)
    ensures forall s :: s in Members(sessions, batchId) <==> s in sessions && IsMember(s, batchId)
  {
    FilterMembers(MemberOf(batchId), sessions);
  }

  function IndexOf(s: Session): nat {
    if s.batch.Some? then s.batch.value.index else 0
  }

  predicate ByIndexThenId(a: Session, b: Session) {
    IndexOf(a) < IndexOf(b) || (IndexOf(a) == IndexOf(b) && StringLe(a.id, b.id))
  }

  function ScopeOf(s: Session): string {
    s.SendScope()
  }

  /** `Vec::dedup`: drop repeats of the element before. */
  function Dedup(s: seq<string>): seq<string> {
    if |s| < 2 then s
    else if s[0] == s[1] then Dedup(s[1..])
    else [s[0]] + Dedup(s[1..])
  }

  predicate HasSingleScope(members: seq<Session>) {
    |Dedup(SortBy(StringLe, Map(ScopeOf, members)))| <= 1
  }

  function AdvertisableIds(members: seq<Session>): Option<seq<string>> {
    if !HasSingleScope(members) then None
    else
      var ids := Map(IdOf, SortBy(ByIndexThenId, members));
      if |ids| >= 2 then Some(ids) else None
  }

  /** The batch-send list of a session; an empty list means that no group message is offered. */
  function SendList(sessions: seq<Session>, s: Session): seq<string> {
    if s.batch.Some? && s.ReadyForGroupInput() then
      match AdvertisableIds(Members(sessions, s.batch.value.id))
      case None => []
      case Some(ids) => ids
    else []
  }

  method CollectGroups(sessions: seq<Session>) returns (groups: map<string, seq<Session>>)
    ensures forall b :: b in groups <==> Members(sessions, b) != []
    ensures forall b :: b in groups ==> groups[b] == Members(sessions, b)
  {
    groups := map[];
    for i := 0 to |sessions|
      invariant forall b :: b in groups <==> Members(sessions[..i], b) != []
      invariant forall b :: b in groups ==> groups[b] == Members(sessions[..i], b)
    {
      var s := sessions[i];
      forall b ensures Members(sessions[..i + 1], b) == Members(sessions[..i], b) + if IsMember(s, b) then [s] else [] {
        assert sessions[..i + 1] == sessions[..i] + [s];
        FilterAppend(MemberOf(b), sessions[..i], [s]);
      }
      if s.batch.Some? && s.ReadyForGroupInput() {
        var b := s.batch.value.id;
        var members := if b in groups then groups[b] else [];
        groups := groups[b := members + [s]];
      }
    }
    assert sessions[..|sessions|] == sessions;
  }

  /** `id` is listed by the batch: the batch is advertised and one of its members has that id. */
  ghost predicate Lists(sessions: seq<Session>, batchId: string, id: string) {
    var ids := AdvertisableIds(Members(sessions, batchId));
    ids.Some? && id in ids.value
  }

  /** The map has an entry for every listed id, and each entry is the list of a batch that lists the id. */
  ghost predicate CollectsAdvertised(sessions: seq<Session>, m: map<string, seq<string>>) {
    && (forall id :: id in m <==> exists b :: Lists(sessions, b, id))
    && (forall id :: id in m ==>
      exists b :: Lists(sessions, b, id) && Some(m[id]) == AdvertisableIds(Members(sessions, b)))
  }

  /**
   * The map behind the response. Batches are visited in an arbitrary order, as hash-map iteration is.
   * With distinct session ids the result does not show it.
   */
  method SendMap(sessions: seq<Session>) returns (m: map<string, seq<string>>)
    ensures CollectsAdvertised(sessions, m)
    ensures DistinctIds(sessions) ==> forall s :: s in sessions ==>
      (s.id in m <==> SendList(sessions, s) != []) && (s.id in m ==> m[s.id] == SendList(sessions, s))
  {
    var groups := CollectGroups(sessions);
    var left := groups.Keys;
    m := map[];
    while left != {}
      invariant left <= groups.Keys
      invariant forall id :: id in m <==> exists b :: b in groups.Keys - left && Lists(sessions, b, id)
      invariant forall id :: id in m ==>
        exists b ::
          b in groups.Keys - left && Lists(sessions, b, id) && Some(m[id]) == AdvertisableIds(Members(sessions, b))
      decreases left
    {
      var b :| b in left;
      var advertised := AdvertisableIds(groups[b]);
      var before := m;
      if advertised.Some? {
        m := AddEntries(m, advertised.value);
      }
      left := left - {b};
      forall id | id in m
        ensures exists c ::
          c in groups.Keys - left && Lists(sessions, c, id) && Some(m[id]) == AdvertisableIds(Members(sessions, c))
      {
        if advertised.Some? && id in advertised.value {
          assert Lists(sessions, b, id);
        } else {
          assert id in before;
        }
      }
    }
    assert forall b :: b !in groups ==> AdvertisableIds(Members(sessions, b)).None?;
    if DistinctIds(sessions) {
      forall s | s in sessions
        ensures (s.id in m <==> SendList(sessions, s) != []) && (s.id in m ==> m[s.id] == SendList(sessions, s))
      {
        ListedByOwnBatch(sessions, s);
      }
    }
  }

  method AddEntries(m: map<string, seq<string>>, ids: seq<string>) returns (r: map<string, seq<string>>)
    ensures forall id :: id in r <==> id in m || id in ids
    ensures forall id :: id in r ==> r[id] == if id in ids then ids else m[id]
  {
    r := m;
    for i := 0 to |ids|
      invariant forall id :: id in r <==> id in m || id in ids[..i]
      invariant forall id :: id in r ==> r[id] == if id in ids[..i] then ids else m[id]
    {
      r := r[ids[i] := ids];
      assert ids[..i + 1] == ids[..i] + [ids[i]];
    }
    assert ids[..|ids|] == ids;
  }

  lemma {:induction false} BatchOrder()
    ensures TotalPreorder(ByIndexThenId) && TotalPreorder(StringLe)
  {
    StringOrder();
  }

  /** An advertised list holds the ids of the batch's members. */
  lemma AdvertisedAreMembers(sessions: seq<Session>, batchId: string)
    requires AdvertisableIds(Members(sessions, batchId)).Some?
    ensures forall id :: id in AdvertisableIds(Members(sessions, batchId)).value
                    <==> exists s :: s in sessions && IsMember(s, batchId) && s.id == id
  {
    var members := Members(sessions, batchId);
    var sorted := SortBy(ByIndexThenId, members);
    var ids := Map(IdOf, sorted);
    BatchOrder();
    SortByIsSorted(ByIndexThenId, members);
    SameMembers(sorted, members);
    MembersMeaning(sessions, batchId);
    MapElements(IdOf, sorted);
    forall id ensures id in ids <==> exists s :: s in sessions && IsMember(s, batchId) && s.id == id {
      if id in ids {
        var i :| 0 <= i < |ids| && ids[i] == id;
        assert sorted[i] in sessions && IsMember(sorted[i], batchId);
      }
      if s :| s in sessions && IsMember(s, batchId) && s.id == id {
        var i :| 0 <= i < |sorted| && sorted[i] == s;
        assert ids[i] == id;
      }
    }
  }

  /** With distinct ids only a session's own batch can list it, and it does so when the session's list is not empty. */
  lemma ListedByOwnBatch(sessions: seq<Session>, s: Session)
    requires DistinctIds(sessions) && s in sessions
    ensures forall b :: Lists(sessions, b, s.id) ==>
      IsMember(s, b) && SendList(sessions, s) == AdvertisableIds(Members(sessions, b)).value
    ensures SendList(sessions, s) != [] ==> s.batch.Some? && Lists(sessions, s.batch.value.id, s.id)
  {
    forall b | Lists(sessions, b, s.id) ensures IsMember(s, b) {
      AdvertisedAreMembers(sessions, b);
      var t :| t in sessions && IsMember(t, b) && t.id == s.id;
      assert t == s;
    }
    if SendList(sessions, s) != [] {
      AdvertisedAreMembers(sessions, s.batch.value.id);
      assert IsMember(s, s.batch.value.id);
    }
  }

  /** The remote target a message to the session goes to; `None` for a session of this machine. */
  function DeliveryTarget(s: Session): Option<string> {
    match SplitRemoteSessionId(s.id)
    case None => None
    case Some(pair) =>
      if s.scope == Local || Trim(s.targetId) in {"", "local"} then Some(pair.0) else Some(Trim(s.targetId))
  }

  /** Scopes are told apart as texts, which no target id can confuse. */
  lemma SameScopeMeaning(s: Session, t: Session)
    ensures s.SendScope() == t.SendScope() <==> DeliveryTarget(s) == DeliveryTarget(t)
  {
    ScopeText(s);
    ScopeText(t);
  }

  lemma ScopeText(s: Session)
    ensures DeliveryTarget(s).None? ==> s.SendScope() == "local"
    ensures DeliveryTarget(s).Some? ==> s.SendScope() == "remote:" + DeliveryTarget(s).value
    ensures DeliveryTarget(s).Some? ==> s.SendScope()[0] == 'r' && s.SendScope()[7..] == DeliveryTarget(s).value
  {
  }

  ghost predicate AllSame(s: seq<string>) {
    forall x, y :: x in s && y in s ==> x == y
  }

  lemma {:induction false} DedupMeaning(s: seq<string>)
    ensures |Dedup(s)| <= 1 <==> AllSame(s)
    ensures s != [] ==> Dedup(s) != []
  {
    if |s| >= 2 {
      DedupMeaning(s[1..]);
      assert forall x :: x in s <==> x == s[0] || x in s[1..];
      assert s[1] == s[1..][0];
      if s[0] == s[1] {
        assert s[0] in s[1..];
        assert forall x :: x in s <==> x in s[1..];
      } else {
        assert s[0] in s && s[1] in s;
        assert !AllSame(s);
      }
    }
  }

  /** The sort-and-dedup test says exactly that all members share one scope. */
  lemma SingleScopeMeaning(members: seq<Session>)
    ensures HasSingleScope(members) <==> forall s, t :: s in members && t in members ==> s.SendScope() == t.SendScope()
  {
    var scopes := Map(ScopeOf, members);
    var sorted := SortBy(StringLe, scopes);
    BatchOrder();
    SortByIsSorted(StringLe, scopes);
    SameMembers(sorted, scopes);
    DedupMeaning(sorted);
    ScopesMeaning(members);
  }

  lemma ScopesMeaning(members: seq<Session>)
    ensures AllSame(Map(ScopeOf, members)) <==>
      forall s, t :: s in members && t in members ==> s.SendScope() == t.SendScope()
  {
    var scopes := Map(ScopeOf, members);
    MapElements(ScopeOf, members);
    forall s | s in members ensures ScopeOf(s) in scopes {
      var i :| 0 <= i < |members| && members[i] == s;
      assert scopes[i] == ScopeOf(s);
    }
    forall x | x in scopes ensures exists s :: s in members && ScopeOf(s) == x {
      var i :| 0 <= i < |scopes| && scopes[i] == x;
      assert members[i] in members && ScopeOf(members[i]) == x;
    }
  }

  /** Every ready session of the batch, and nothing else, in strict (index, id) order and of one scope. */
  ghost predicate IsWholeBatch(sessions: seq<Session>, batchId: string, order: seq<Session>, ids: seq<string>) {
    && |order| >= 2
    && (forall s :: s in order <==> s in sessions && IsMember(s, batchId))
    && (forall s :: s in order ==> s.batch.Some?)
    && (forall i, j :: 0 <= i < j < |order| ==>
         var x, y := order[i], order[j];
         x.id != y.id && x.batch.value.index <= y.batch.value.index
         && (x.batch.value.index == y.batch.value.index ==> StringLe(x.id, y.id)))
    && (forall s, t :: s in order && t in order ==> DeliveryTarget(s) == DeliveryTarget(t))
    && ids == Map(IdOf, order)
  }

  lemma {:induction false} FilterKeepsDistinctIds(p: Session -> bool, sessions: seq<Session>)
    requires DistinctIds(sessions)
    ensures DistinctIds(Filter(p, sessions))
  {
    if sessions != [] {
      assert DistinctIds(sessions[1..]);
      FilterKeepsDistinctIds(p, sessions[1..]);
      FilterMembers(p, sessions[1..]);
      forall t | t in Filter(p, sessions[1..]) ensures t.id != sessions[0].id {
        assert t in sessions[1..];
      }
    }
  }

  lemma DistinctIdsIsNoDup(sessions: seq<Session>)
    ensures DistinctIds(sessions) <==> NoDup(Map(IdOf, sessions))
  {
    var ids := Map(IdOf, sessions);
    MapElements(IdOf, sessions);
    if NoDup(ids) {
      forall i, j | 0 <= i < j < |sessions| ensures sessions[i].id != sessions[j].id {
        assert ids[i] != ids[j];
      }
    }
  }

  lemma DistinctIdsPermutes(a: seq<Session>, b: seq<Session>)
    requires multiset(a) == multiset(b) && DistinctIds(a)
    ensures DistinctIds(b)
  {
    DistinctIdsIsNoDup(a);
    DistinctIdsIsNoDup(b);
    MapPermutes(IdOf, a, b);
    NoDupPermutes(Map(IdOf, a), Map(IdOf, b));
  }

  /** The sorted members of a batch: the order in which its list names them. */
  lemma SortedMembers(sessions: seq<Session>, batchId: string) returns (order: seq<Session>)
    requires DistinctIds(sessions)
    ensures order == SortBy(ByIndexThenId, Members(sessions, batchId)) && |order| == |Members(sessions, batchId)|
    ensures forall s :: s in order <==> s in sessions && IsMember(s, batchId)
    ensures forall i, j :: 0 <= i < j < |order| ==> ByIndexThenId(order[i], order[j]) && order[i].id != order[j].id
  {
    var members := Members(sessions, batchId);
    order := SortBy(ByIndexThenId, members);
    BatchOrder();
    SortByIsSorted(ByIndexThenId, members);
    FilterKeepsDistinctIds(MemberOf(batchId), sessions);
    DistinctIdsPermutes(members, order);
    SameMembers(order, members);
    MembersMeaning(sessions, batchId);
  }

  lemma SortedIsWhole(sessions: seq<Session>, batchId: string) returns (order: seq<Session>)
    requires DistinctIds(sessions) && AdvertisableIds(Members(sessions, batchId)).Some?
    ensures IsWholeBatch(sessions, batchId, order, AdvertisableIds(Members(sessions, batchId)).value)
  {
    order := SortedMembers(sessions, batchId);
    SingleScopeMeaning(Members(sessions, batchId));
    MembersMeaning(sessions, batchId);
    forall s, t | s in order && t in order ensures DeliveryTarget(s) == DeliveryTarget(t) {
      SameScopeMeaning(s, t);
    }
  }

  /**
   * With distinct ids a nonempty list is its session's whole ready batch, shared by all it names and by nobody else.
   */
  lemma SendListsPartition(sessions: seq<Session>, s: Session)
    requires DistinctIds(sessions) && s in sessions && SendList(sessions, s) != []
    ensures s.batch.Some? && s.id in SendList(sessions, s)
    ensures exists order :: IsWholeBatch(sessions, s.batch.value.id, order, SendList(sessions, s))
    ensures forall t :: t in sessions ==> (t.id in SendList(sessions, s) <==> IsMember(t, s.batch.value.id))
    ensures forall t :: t in sessions && t.id in SendList(sessions, s) ==>
      SendList(sessions, t) == SendList(sessions, s)
  {
    var b := s.batch.value.id;
    var order := SortedIsWhole(sessions, b);
    AdvertisedAreMembers(sessions, b);
    assert IsMember(s, b);
    forall t | t in sessions ensures t.id in SendList(sessions, s) <==> IsMember(t, b) {
      if t.id in SendList(sessions, s) {
        var u :| u in sessions && IsMember(u, b) && u.id == t.id;
        assert u == t;
      }
    }
  }

  /**
   * A session gets no list exactly when it is not ready in a batch, is ready there alone, or its batch spans scopes.
   */
  lemma NoSendListMeaning(sessions: seq<Session>, s: Session)
    requires DistinctIds(sessions) && s in sessions
    ensures SendList(sessions, s) == [] <==>
      || s.batch.None? || !s.ReadyForGroupInput()
      || (forall t :: t in sessions && IsMember(t, s.batch.value.id) ==> t == s)
      || (exists t :: t in sessions && IsMember(t, s.batch.value.id) && DeliveryTarget(t) != DeliveryTarget(s))
  {
    if s.batch.Some? && s.ReadyForGroupInput() {
      var b := s.batch.value.id;
      var members := Members(sessions, b);
      var order := SortedMembers(sessions, b);
      SingleScopeMeaning(members);
      MembersMeaning(sessions, b);
      assert s in members && s in order;
      if |order| < 2 {
        assert order == [s];
        assert SendList(sessions, s) == [];
      } else if HasSingleScope(members) {
        assert SendList(sessions, s) == Map(IdOf, order);
        assert order[0] in sessions && order[1] in sessions && order[0] != order[1];
        forall t | t in sessions && IsMember(t, b) ensures DeliveryTarget(t) == DeliveryTarget(s) {
          assert t in members;
          SameScopeMeaning(t, s);
        }
      } else {
        assert SendList(sessions, s) == [];
        var t, u :| t in members && u in members && t.SendScope() != u.SendScope();
        var v := if t.SendScope() != s.SendScope() then t else u;
        SameScopeMeaning(v, s);
        assert v in sessions && IsMember(v, b) && DeliveryTarget(v) != DeliveryTarget(s);
      }
    }
  }

  lemma MembersPermute(a: seq<Session>, b: seq<Session>, batchId: string)
    requires multiset(a) == multiset(b) && DistinctIds(a)
    ensures AdvertisableIds(Members(a, batchId)) == AdvertisableIds(Members(b, batchId))
  {
    var ma, mb := Members(a, batchId), Members(b, batchId);
    FilterPermutes(MemberOf(batchId), a, b);
    FilterKeepsDistinctIds(MemberOf(batchId), a);
    SingleScopeMeaning(ma);
    SingleScopeMeaning(mb);
    SameMembers(ma, mb);
    BatchOrder();
    StringOrder();
    SortByForgetsOrder(ByIndexThenId, ma, mb);
  }

  /** Batch-send lists do not depend on the listing order. */
  lemma SendListForgetsOrder(a: seq<Session>, b: seq<Session>, s: Session)
    requires multiset(a) == multiset(b) && DistinctIds(a)
    ensures SendList(a, s) == SendList(b, s)
  {
    if s.batch.Some? {
      MembersPermute(a, b, s.batch.value.id);
    }
  }

  /** `ids.join("\0")`. */
  function Join(ids: seq<string>): string {
    if ids == [] then ""
    else if |ids| == 1 then ids[0]
    else ids[0] + ['\0'] + Join(ids[1..])
  }

  /** The summary's `batch_send_groups`: how many different joined lists the map holds. */
  function GroupCount(m: map<string, seq<string>>): nat {
    |JoinedLists(m)|
  }

  predicate NulFree(ids: seq<string>) {
    forall i :: 0 <= i < |ids| ==> '\0' !in ids[i]
  }

  function FirstNul(s: string): nat {
    if s == [] || s[0] == '\0' then 0 else 1 + FirstNul(s[1..])
  }

  lemma {:induction false} FirstNulAfter(head: string, tail: string)
    requires '\0' !in head && (tail == [] || tail[0] == '\0')
    ensures FirstNul(head + tail) == |head|
  {
    if head == [] {
      assert head + tail == tail;
    } else {
      assert head[0] in head;
      assert (head + tail)[1..] == head[1..] + tail;
      FirstNulAfter(head[1..], tail);
    }
  }

  /** The first NUL of a joined list ends its first id, and only a list of one has none. */
  lemma {:induction false} JoinHead(ids: seq<string>)
    requires ids != [] && NulFree(ids)
    ensures FirstNul(Join(ids)) == |ids[0]| <= |Join(ids)| && Join(ids)[..|ids[0]|] == ids[0]
    ensures |ids| == 1 <==> |Join(ids)| == |ids[0]|
    ensures |ids| > 1 ==> Join(ids)[|ids[0]| + 1..] == Join(ids[1..])
  {
    var tail := if |ids| == 1 then [] else ['\0'] + Join(ids[1..]);
    assert Join(ids) == ids[0] + tail;
    FirstNulAfter(ids[0], tail);
  }

  lemma {:induction false} JoinIsInjective(a: seq<string>, b: seq<string>)
    requires a != [] && b != [] && NulFree(a) && NulFree(b) && Join(a) == Join(b)
    ensures a == b
  {
    JoinHead(a);
    JoinHead(b);
    if |a| > 1 {
      JoinIsInjective(a[1..], b[1..]);
    }
    assert a == [a[0]] + a[1..] && b == [b[0]] + b[1..];
  }

  function AdvertisedBatches(sessions: seq<Session>): set<string> {
    set s | s in sessions && s.batch.Some? && AdvertisableIds(Members(sessions, s.batch.value.id)).Some?
      :: s.batch.value.id
  }

  /** Some session of the listing is the first one an advertised list names. */
  lemma FirstListed(sessions: seq<Session>, batchId: string) returns (s: Session)
    requires AdvertisableIds(Members(sessions, batchId)).Some?
    ensures s in sessions && IsMember(s, batchId)
    ensures var ids := AdvertisableIds(Members(sessions, batchId)).value;
      |ids| >= 2 && s.id == ids[0] && Lists(sessions, batchId, s.id)
  {
    var id := AdvertisableIds(Members(sessions, batchId)).value[0];
    AdvertisedAreMembers(sessions, batchId);
    assert Lists(sessions, batchId, id);
    s :| s in sessions && IsMember(s, batchId) && s.id == id;
  }

  lemma AdvertisedBatchesMeaning(sessions: seq<Session>)
    ensures forall b :: b in AdvertisedBatches(sessions) <==> AdvertisableIds(Members(sessions, b)).Some?
  {
    forall b | AdvertisableIds(Members(sessions, b)).Some? ensures b in AdvertisedBatches(sessions) {
      var s := FirstListed(sessions, b);
    }
  }

  function JoinedList(sessions: seq<Session>, batchId: string): string {
    match AdvertisableIds(Members(sessions, batchId))
    case None => ""
    case Some(ids) => Join(ids)
  }

  function JoinedImage(sessions: seq<Session>, batches: set<string>): set<string> {
    set b | b in batches :: JoinedList(sessions, b)
  }

  lemma {:induction false} ImageOfOneMore(sessions: seq<Session>, rest: set<string>, x: string)
    ensures JoinedImage(sessions, rest + {x}) == JoinedImage(sessions, rest) + {JoinedList(sessions, x)}
  {
  }

  lemma NotInImage(sessions: seq<Session>, rest: set<string>, x: string)
    requires x !in rest && forall b :: b in rest && JoinedList(sessions, b) == JoinedList(sessions, x) ==> b == x
    ensures JoinedList(sessions, x) !in JoinedImage(sessions, rest)
  {
  }

  /** Different batches have different joined lists. */
  ghost predicate JoinedDifferently(sessions: seq<Session>, batches: set<string>) {
    forall b, c :: b in batches && c in batches && JoinedList(sessions, b) == JoinedList(sessions, c) ==> b == c
  }

  lemma {:induction false} ImageSize(sessions: seq<Session>, batches: set<string>)
    ensures |JoinedImage(sessions, batches)| <= |batches|
    ensures JoinedDifferently(sessions, batches) ==> |JoinedImage(sessions, batches)| == |batches|
  {
    if batches != {} {
      var x :| x in batches;
      var rest := batches - {x};
      ImageSize(sessions, rest);
      assert batches == rest + {x};
      ImageOfOneMore(sessions, rest, x);
      if JoinedDifferently(sessions, batches) {
        NotInImage(sessions, rest, x);
      }
    }
  }

  lemma {:induction false} SameImageWithout(sessions: seq<Session>, batches: set<string>, b: string, c: string)
    requires b in batches && c in batches && b != c && JoinedList(sessions, b) == JoinedList(sessions, c)
    ensures JoinedImage(sessions, batches) == JoinedImage(sessions, batches - {c})
  {
    assert b in batches - {c};
    assert batches == (batches - {c}) + {c};
    ImageOfOneMore(sessions, batches - {c}, c);
  }

  /** As many joined lists as batches: exactly when no two batches join alike. */
  lemma {:induction false} ImageSizeExactly(sessions: seq<Session>, batches: set<string>)
    ensures |JoinedImage(sessions, batches)| == |batches| <==> JoinedDifferently(sessions, batches)
  {
    ImageSize(sessions, batches);
    if b, c :| b in batches && c in batches && b != c && JoinedList(sessions, b) == JoinedList(sessions, c) {
      SameImageWithout(sessions, batches, b, c);
      ImageSize(sessions, batches - {c});
      assert |batches - {c}| == |batches| - 1;
    }
  }

  lemma {:induction false} SubsetSize(a: set<string>, b: set<string>)
    requires a <= b
    ensures |a| <= |b|
  {
    if a != {} {
      var x :| x in a;
      SubsetSize(a - {x}, b - {x});
    }
  }

  function JoinedLists(m: map<string, seq<string>>): set<string> {
    set id | id in m :: Join(m[id])
  }

  lemma {:induction false} JoinedListsAreAdvertised(sessions: seq<Session>, m: map<string, seq<string>>)
    requires CollectsAdvertised(sessions, m)
    ensures JoinedLists(m) <= JoinedImage(sessions, AdvertisedBatches(sessions))
  {
    AdvertisedBatchesMeaning(sessions);
    forall id | id in m ensures exists b :: b in AdvertisedBatches(sessions) && Join(m[id]) == JoinedList(sessions, b) {
      var b :| Lists(sessions, b, id) && Some(m[id]) == AdvertisableIds(Members(sessions, b));
    }
  }

  /** With distinct ids an advertised batch's list is the map entry of its first id. */
  lemma AdvertisedListIsEntry(sessions: seq<Session>, m: map<string, seq<string>>, batchId: string)
    requires CollectsAdvertised(sessions, m) && DistinctIds(sessions) &&
      AdvertisableIds(Members(sessions, batchId)).Some?
    ensures JoinedList(sessions, batchId) in JoinedLists(m)
  {
    var s := FirstListed(sessions, batchId);
    assert s.id in m;
    var b :| Lists(sessions, b, s.id) && Some(m[s.id]) == AdvertisableIds(Members(sessions, b));
    ListedByOwnBatch(sessions, s);
    assert Join(m[s.id]) in JoinedLists(m);
  }

  lemma AdvertisedListsDiffer(sessions: seq<Session>, b: string, c: string)
    requires DistinctIds(sessions) && NulFree(Map(IdOf, sessions))
    requires AdvertisableIds(Members(sessions, b)).Some? && AdvertisableIds(Members(sessions, c)).Some?
    requires JoinedList(sessions, b) == JoinedList(sessions, c)
    ensures b == c
  {
    var s := FirstListed(sessions, b);
    var t := FirstListed(sessions, c);
    AdvertisedNulFree(sessions, b);
    AdvertisedNulFree(sessions, c);
    JoinIsInjective(AdvertisableIds(Members(sessions, b)).value, AdvertisableIds(Members(sessions, c)).value);
    assert s == t;
  }

  lemma AdvertisedNulFree(sessions: seq<Session>, batchId: string)
    requires NulFree(Map(IdOf, sessions)) && AdvertisableIds(Members(sessions, batchId)).Some?
    ensures NulFree(AdvertisableIds(Members(sessions, batchId)).value)
  {
    var ids := AdvertisableIds(Members(sessions, batchId)).value;
    AdvertisedAreMembers(sessions, batchId);
    forall i | 0 <= i < |ids| ensures '\0' !in ids[i] {
      assert ids[i] in ids;
      var s :| s in sessions && IsMember(s, batchId) && s.id == ids[i];
      var k :| 0 <= k < |sessions| && sessions[k] == s;
      MapElements(IdOf, sessions);
      assert Map(IdOf, sessions)[k] == s.id;
    }
  }

  lemma AdvertisedAreJoined(sessions: seq<Session>, m: map<string, seq<string>>)
    requires CollectsAdvertised(sessions, m) && DistinctIds(sessions)
    ensures JoinedImage(sessions, AdvertisedBatches(sessions)) <= JoinedLists(m)
  {
    AdvertisedBatchesMeaning(sessions);
    forall b | b in AdvertisedBatches(sessions) ensures JoinedList(sessions, b) in JoinedLists(m) {
      AdvertisedListIsEntry(sessions, m, b);
    }
  }

  /** `batch_send_groups` never exceeds the number of advertised batches. */
  lemma {:induction false} GroupCountBound(sessions: seq<Session>, m: map<string, seq<string>>)
    requires CollectsAdvertised(sessions, m)
    ensures GroupCount(m) <= |AdvertisedBatches(sessions)|
  {
    JoinedListsAreAdvertised(sessions, m);
    ImageSize(sessions, AdvertisedBatches(sessions));
    SubsetSize(JoinedLists(m), JoinedImage(sessions, AdvertisedBatches(sessions)));
  }

  /**
   * With distinct ids, whatever they contain, `batch_send_groups` is the number of
   * advertised batches exactly when no two of them have the same joined list.
   */
  lemma {:induction false} GroupCountExactly(sessions: seq<Session>, m: map<string, seq<string>>)
    requires CollectsAdvertised(sessions, m) && DistinctIds(sessions)
    ensures GroupCount(m) == |AdvertisedBatches(sessions)| <==> JoinedDifferently(sessions, AdvertisedBatches(sessions))
  {
    JoinedListsAreAdvertised(sessions, m);
    AdvertisedAreJoined(sessions, m);
    assert JoinedLists(m) == JoinedImage(sessions, AdvertisedBatches(sessions));
    ImageSizeExactly(sessions, AdvertisedBatches(sessions));
  }

  lemma {:induction false} NulFreeJoinDifferently(sessions: seq<Session>)
    requires DistinctIds(sessions) && NulFree(Map(IdOf, sessions))
    ensures JoinedDifferently(sessions, AdvertisedBatches(sessions))
  {
    AdvertisedBatchesMeaning(sessions);
    var batches := AdvertisedBatches(sessions);
    forall b, c | b in batches && c in batches && JoinedList(sessions, b) == JoinedList(sessions, c) ensures b == c {
      AdvertisedListsDiffer(sessions, b, c);
    }
  }

  /** With distinct, NUL-free session ids `batch_send_groups` is the number of advertised batches. */
  lemma {:induction false} GroupCountMeaning(sessions: seq<Session>, m: map<string, seq<string>>)
    requires CollectsAdvertised(sessions, m) && DistinctIds(sessions) && NulFree(Map(IdOf, sessions))
    ensures GroupCount(m) == |AdvertisedBatches(sessions)|
  {
    NulFreeJoinDifferently(sessions);
    GroupCountExactly(sessions, m);
  }

  // ----- why the count needs ids without NUL

  /** A local session that awaits the user, as one of a batch. */
  function Waiting(id: string, batchId: string, index: nat): Session {
    Session(id, "", Idle, false, true, High, NoTool, ThoughtHolding, Drowsy, false, 1, 0, 0, 0, false, Healthy, "", "",
            "", Some(Batch(batchId, index)), Local, "", "", "")
  }

  lemma SeparatorHasColon(id: string, i: int)
    requires OccursAt(id, SEPARATOR, i)
    ensures ':' in id
  {
    assert id[i] == id[i..i + |SEPARATOR|][0] == SEPARATOR[0];
  }

  lemma {:induction false} NoColonIsLocal(s: Session)
    requires ':' !in s.id
    ensures s.SendScope() == "local"
  {
    if i :| OccursAt(s.id, SEPARATOR, i) {
      SeparatorHasColon(s.id, i);
    }
  }

  lemma {:induction false} PairIsSorted(s: Session, t: Session)
    requires IndexOf(s) < IndexOf(t)
    ensures SortBy(ByIndexThenId, [s, t]) == [s, t] && Map(IdOf, [s, t]) == [s.id, t.id]
  {
    assert [s, t][1..] == [t] && [t][1..] == [];
    assert SortBy(ByIndexThenId, [t]) == [t];
    MapElements(IdOf, [s, t]);
  }

  lemma {:induction false} PairIsAdvertised(s: Session, t: Session)
    requires IndexOf(s) < IndexOf(t) && s.SendScope() == t.SendScope()
    ensures AdvertisableIds([s, t]) == Some([s.id, t.id])
  {
    PairIsSorted(s, t);
    SingleScopeMeaning([s, t]);
    assert forall x :: x in [s, t] ==> x == s || x == t;
    assert HasSingleScope([s, t]);
  }

  lemma {:induction false} TwoAndTwo(s: Session, t: Session, u: Session, v: Session, b: string, c: string)
    requires IsMember(s, b) && IsMember(t, b) && IsMember(u, c) && IsMember(v, c) && b != c
    ensures Members([s, t, u, v], b) == [s, t] && Members([s, t, u, v], c) == [u, v]
  {
    assert [s, t, u, v] == [s, t] + [u, v];
    assert [s, t][1..] == [t] && [t][1..] == [] && [u, v][1..] == [v] && [v][1..] == [];
    FilterAppend(MemberOf(b), [s, t], [u, v]);
    FilterAppend(MemberOf(c), [s, t], [u, v]);
    assert Filter(MemberOf(b), [t]) == [t] && Filter(MemberOf(b), [v]) == [];
    assert Filter(MemberOf(c), [t]) == [] && Filter(MemberOf(c), [v]) == [v];
  }

  lemma JoinOfTwo(x: string, y: string)
    ensures Join([x, y]) == x + ['\0'] + y
  {
    assert [x, y][1..] == [y];
  }

  /** Both batches are advertised, and one joined list stands for the two. */
  lemma {:induction false} TwoBatchesAdvertised(sessions: seq<Session>, b: string, c: string, joined: string)
    requires AdvertisableIds(Members(sessions, b)).Some? && AdvertisableIds(Members(sessions, c)).Some?
    requires forall s :: s in sessions ==> s.batch.Some? && s.batch.value.id in {b, c}
    requires JoinedList(sessions, b) == joined && JoinedList(sessions, c) == joined
    ensures AdvertisedBatches(sessions) == {b, c} && JoinedImage(sessions, AdvertisedBatches(sessions)) == {joined}
  {
    AdvertisedBatchesMeaning(sessions);
    assert b in AdvertisedBatches(sessions);
  }

  lemma EntryIsJoined(m: map<string, seq<string>>, id: string)
    requires id in m
    ensures Join(m[id]) in JoinedLists(m)
  {
  }

  lemma SomeOfOne(a: set<string>, x: string, y: string)
    requires a <= {x} && y in a
    ensures |a| == 1
  {
    assert a == {x};
  }

  lemma {:induction false} OneGroup(sessions: seq<Session>, m: map<string, seq<string>>, b: string, joined: string)
    requires CollectsAdvertised(sessions, m) && AdvertisableIds(Members(sessions, b)).Some?
    requires JoinedImage(sessions, AdvertisedBatches(sessions)) == {joined}
    ensures GroupCount(m) == 1
  {
    JoinedListsAreAdvertised(sessions, m);
    var s := FirstListed(sessions, b);
    EntryIsJoined(m, s.id);
    SomeOfOne(JoinedLists(m), joined, Join(m[s.id]));
  }

  lemma {:induction false} JoinedAlike(
      sessions: seq<Session>, s: Session, t: Session, u: Session, v: Session, b: string, c: string)
    requires sessions == [s, t, u, v]
    requires IsMember(s, b) && IsMember(t, b) && IsMember(u, c) && IsMember(v, c) && b != c
    requires AdvertisableIds([s, t]) == Some([s.id, t.id]) && AdvertisableIds([u, v]) == Some([u.id, v.id])
    requires s.id + ['\0'] + t.id == u.id + ['\0'] + v.id
    ensures AdvertisableIds(Members(sessions, b)).Some?
    ensures AdvertisedBatches(sessions) == {b, c} &&
      JoinedImage(sessions, AdvertisedBatches(sessions)) == {Join([s.id, t.id])}
  {
    TwoAndTwo(s, t, u, v, b, c);
    JoinOfTwo(s.id, t.id);
    JoinOfTwo(u.id, v.id);
    TwoBatchesAdvertised(sessions, b, c, Join([s.id, t.id]));
  }

  /** Whether a NUL is a separator or part of an id cannot be told from the joined text. */
  function Ambiguous(): seq<Session> {
    [Waiting(['a'], ['X'], 0), Waiting(['b', '\0', 'c'], ['X'], 1), Waiting(['a', '\0', 'b'], ['Y'], 0),
      Waiting(['c'], ['Y'], 1)]
  }

  lemma AmbiguousSessions() returns (s: Session, t: Session, u: Session, v: Session)
    ensures Ambiguous() == [s, t, u, v] && DistinctIds([s, t, u, v])
    ensures s == Waiting(s.id, ['X'], 0) && t == Waiting(t.id, ['X'], 1) && u == Waiting(u.id, ['Y'], 0) &&
      v == Waiting(v.id, ['Y'], 1)
    ensures ':' !in s.id && ':' !in t.id && ':' !in u.id && ':' !in v.id
    ensures s.id + ['\0'] + t.id == u.id + ['\0'] + v.id
  {
    s, t := Waiting(['a'], ['X'], 0), Waiting(['b', '\0', 'c'], ['X'], 1);
    u, v := Waiting(['a', '\0', 'b'], ['Y'], 0), Waiting(['c'], ['Y'], 1);
  }

  lemma {:induction false} ExampleIsAdvertised(s: Session, t: Session, u: Session, v: Session)
    requires s == Waiting(s.id, ['X'], 0) && t == Waiting(t.id, ['X'], 1) && u == Waiting(u.id, ['Y'], 0) &&
      v == Waiting(v.id, ['Y'], 1)
    requires ':' !in s.id && ':' !in t.id && ':' !in u.id && ':' !in v.id
    ensures IsMember(s, ['X']) && IsMember(t, ['X']) && IsMember(u, ['Y']) && IsMember(v, ['Y'])
    ensures AdvertisableIds([s, t]) == Some([s.id, t.id]) && AdvertisableIds([u, v]) == Some([u.id, v.id])
  {
    NoColonIsLocal(s);
    NoColonIsLocal(t);
    NoColonIsLocal(u);
    NoColonIsLocal(v);
    PairIsAdvertised(s, t);
    PairIsAdvertised(u, v);
  }

  ghost predicate AlwaysCountsOneGroup(sessions: seq<Session>) {
    forall m :: CollectsAdvertised(sessions, m) ==> GroupCount(m) == 1
  }

  lemma {:induction false} OneJoinedListCountsOnce(sessions: seq<Session>, b: string, joined: string)
    requires AdvertisableIds(Members(sessions, b)).Some? &&
      JoinedImage(sessions, AdvertisedBatches(sessions)) == {joined}
    ensures AlwaysCountsOneGroup(sessions)
  {
    forall m | CollectsAdvertised(sessions, m) ensures GroupCount(m) == 1 {
      OneGroup(sessions, m, b, joined);
    }
  }

  lemma {:induction false} AmbiguousLists(
      sessions: seq<Session>, s: Session, t: Session, u: Session, v: Session, b: string, c: string)
    requires sessions == [s, t, u, v] && b != c
    requires IsMember(s, b) && IsMember(t, b) && IsMember(u, c) && IsMember(v, c)
    requires AdvertisableIds([s, t]) == Some([s.id, t.id]) && AdvertisableIds([u, v]) == Some([u.id, v.id])
    requires s.id + ['\0'] + t.id == u.id + ['\0'] + v.id
    ensures |AdvertisedBatches(sessions)| == 2 && AlwaysCountsOneGroup(sessions)
  {
    JoinedAlike(sessions, s, t, u, v, b, c);
    OneJoinedListCountsOnce(sessions, b, Join([s.id, t.id]));
  }

  /** Two batches whose lists join alike count as one: `a`, `b\0c` in one and `a\0b`, `c` in the other. */
  lemma {:induction false} NulMergesGroups()
    ensures DistinctIds(Ambiguous()) && |AdvertisedBatches(Ambiguous())| == 2 && AlwaysCountsOneGroup(Ambiguous())
  {
    var s, t, u, v := AmbiguousSessions();
    ExampleIsAdvertised(s, t, u, v);
    var b, c := ['X'], ['Y'];
    assert b[0] != c[0];
    AmbiguousLists(Ambiguous(), s, t, u, v, b, c);
  }
}
