/** Namespaced session ids: `target::remote`, split on the first separator or against the configured targets. */
module SessionIds {
  import opened Wrappers
  import opened Text
  import opened Ordering

  const SEPARATOR: string := "::"

  datatype Target = Target(id: string, kind: string, baseUrl: Option<string>)

  datatype TargetError = Unsupported(id: string) | MissingBaseUrl(id: string) | Unknown(id: string)

  function NamespaceSessionId(targetId: string, remoteId: string): string {
    targetId + SEPARATOR + remoteId
  }

  /** The least offset at or after `i` where `p` occurs. */
  function FindFrom(s: string, p: string, i: nat): (r: Option<nat>)
    requires i <= |s|
    ensures r.Some? ==> i <= r.value && OccursAt(s, p, r.value) && forall k :: i <= k < r.value ==> !OccursAt(s, p, k)
    ensures r.None? ==> forall k :: i <= k ==> !OccursAt(s, p, k)
    decreases |s| - i
  {
    if OccursAt(s, p, i) then Some(i) else if i == |s| then None else FindFrom(s, p, i + 1)
  }

  function SplitRemoteSessionId(sessionId: string): Option<(string, string)> {
    match FindFrom(sessionId, SEPARATOR, 0)
    case None => None
    case Some(i) =>
      var targetId, remoteId := sessionId[..i], sessionId[i + |SEPARATOR|..];
      if targetId != [] && remoteId != [] then Some((targetId, remoteId)) else None
  }

  lemma NamespacedParts(targetId: string, remoteId: string)
    ensures var s, n := NamespaceSessionId(targetId, remoteId), |targetId|;
      |s| == n + 2 + |remoteId| && s[..n] == targetId && s[n..n + 2] == SEPARATOR && s[n + 2..] == remoteId
    ensures OccursAt(NamespaceSessionId(targetId, remoteId), SEPARATOR, |targetId|)
  {
  }

  /** Before its own separator, a namespaced id has those of its target, and one that the target's last colon begins. */
  lemma EarlierSeparator(targetId: string, remoteId: string, i: int)
    requires 0 <= i < |targetId|
    ensures OccursAt(NamespaceSessionId(targetId, remoteId), SEPARATOR, i) <==>
      OccursAt(targetId, SEPARATOR, i) || (i == |targetId| - 1 && targetId[i] == ':')
  {
    var s, n := NamespaceSessionId(targetId, remoteId), |targetId|;
    if i < n - 1 {
      assert s[i..i + 2] == targetId[i..i + 2];
    } else {
      assert s[i..i + 2] == [targetId[i], ':'];
    }
  }

  /** Splitting a namespaced pair gives the pair back exactly when the target offers no earlier separator. */
  lemma SplitRecoversPair(targetId: string, remoteId: string)
    requires targetId != [] && remoteId != []
    ensures SplitRemoteSessionId(NamespaceSessionId(targetId, remoteId)) == Some((targetId, remoteId))
       <==> (forall i :: !OccursAt(targetId, SEPARATOR, i)) && targetId[|targetId| - 1] != ':'
  {
    var s, n := NamespaceSessionId(targetId, remoteId), |targetId|;
    NamespacedParts(targetId, remoteId);
    var first := FindFrom(s, SEPARATOR, 0).value;
    if first < n {
      EarlierSeparator(targetId, remoteId, first);
      assert |s[..first]| != n;
    } else {
      EarlierSeparator(targetId, remoteId, n - 1);
      forall i ensures !OccursAt(targetId, SEPARATOR, i) {
        if 0 <= i < n {
          EarlierSeparator(targetId, remoteId, i);
        }
      }
    }
  }

  /** Whatever splits, splits into two parts that namespace to it. */
  lemma SplitIsNamespaced(sessionId: string)
    ensures var pair := SplitRemoteSessionId(sessionId);
      pair.Some? ==>
        && pair.value.0 != [] && pair.value.1 != []
        && sessionId == NamespaceSessionId(pair.value.0, pair.value.1)
  {
    var i := FindFrom(sessionId, SEPARATOR, 0);
    if i.Some? {
      assert sessionId == sessionId[..i.value] + sessionId[i.value..i.value + 2] + sessionId[i.value + 2..];
    }
  }

  function NormalizedTargetKind(kind: string): string {
    var k := AsciiLower(Trim(kind));
    if k == "ssh" then "ssh_only" else if k == [] then "local" else k
  }

  const API_KIND: string := "swimmers_api"

  function EnsureApiTarget(target: Target): Option<TargetError> {
    if NormalizedTargetKind(target.kind) != API_KIND then Some(Unsupported(target.id))
    else if target.baseUrl.None? || Trim(target.baseUrl.value) == [] then Some(MissingBaseUrl(target.id))
    else None
  }

  /** A target's kind is compared without regard to case and surrounding white space, and its URL must not be blank. */
  lemma ApiTargetMeaning(target: Target)
    ensures EnsureApiTarget(target) ==
      if AsciiLower(Trim(target.kind)) != "swimmers_api" then Some(Unsupported(target.id))
      else if target.baseUrl == None || Trim(target.baseUrl.value) == "" then Some(MissingBaseUrl(target.id))
      else None
  {
    assert "ssh_only"[1] != API_KIND[1];
    assert "local"[0] != API_KIND[0] && "ssh"[1] != API_KIND[1];
  }

  predicate Covers(sessionId: string, targetId: string) {
    StartsWith(sessionId, targetId + SEPARATOR) && |sessionId| > |targetId| + |SEPARATOR|
  }

  lemma CoversMeaning(sessionId: string, targetId: string)
    ensures Covers(sessionId, targetId) <==>
      exists remoteId :: remoteId != [] && sessionId == NamespaceSessionId(targetId, remoteId)
  {
    if Covers(sessionId, targetId) {
      var remoteId := sessionId[|targetId| + |SEPARATOR|..];
      assert sessionId == NamespaceSessionId(targetId, remoteId);
    }
  }

  function Remainder(sessionId: string, targetId: string): string
    requires Covers(sessionId, targetId)
  {
    sessionId[|targetId| + |SEPARATOR|..]
  }

  /** The configured targets that could own the id, in configuration order. */
  function Candidates(sessionId: string, targets: seq<Target>): seq<(Target, string)> {
    if targets == [] then []
    else
      var rest := Candidates(sessionId, targets[1..]);
      if Covers(sessionId, targets[0].id) then [(targets[0], Remainder(sessionId, targets[0].id))] + rest else rest
  }

  /** Longest id first. All candidates are prefixes of one text, so counting bytes or characters is the same. */
  predicate LongerIdFirst(a: (Target, string), b: (Target, string)) {
    |a.0.id| >= |b.0.id|
  }

  function Denamespace(sessionId: string, targets: seq<Target>): Result<Option<(Target, string)>, TargetError> {
    var sorted := SortBy(LongerIdFirst, Candidates(sessionId, targets));
    if sorted != [] then
      match EnsureApiTarget(sorted[0].0)
      case Some(error) => Err(error)
      case None => Ok(Some(sorted[0]))
    else
      match SplitRemoteSessionId(sessionId)
      case None => Ok(None)
      case Some(pair) => Err(Unknown(pair.0))
  }

  /** Candidate `k` is some covering target `i`, and the candidates before it are those of the targets before `i`. */
  lemma {:induction false} CandidateOrigin(sessionId: string, targets: seq<Target>, k: nat) returns (i: nat)
    requires k < |Candidates(sessionId, targets)|
    ensures i < |targets| && Covers(sessionId, targets[i].id)
    ensures Candidates(sessionId, targets)[k] == (targets[i], Remainder(sessionId, targets[i].id))
    ensures Candidates(sessionId, targets[..i]) == Candidates(sessionId, targets)[..k]
  {
    var first := Covers(sessionId, targets[0].id);
    if first && k == 0 {
      i := 0;
    } else {
      var j := CandidateOrigin(sessionId, targets[1..], if first then k - 1 else k);
      i := j + 1;
      assert targets[..i][1..] == targets[1..][..j];
      assert targets[..i][0] == targets[0];
    }
  }

  lemma {:induction false} CoveringIsCandidate(sessionId: string, targets: seq<Target>, j: nat)
    requires j < |targets| && Covers(sessionId, targets[j].id)
    ensures (targets[j], Remainder(sessionId, targets[j].id)) in Candidates(sessionId, targets)
  {
    if j > 0 {
      CoveringIsCandidate(sessionId, targets[1..], j - 1);
    }
  }

  /** Target `i` owns the id: it covers it, with the longest id of those that do, the earliest of equals. */
  ghost predicate Owns(sessionId: string, targets: seq<Target>, i: nat) {
    && i < |targets| && Covers(sessionId, targets[i].id)
    && (forall j :: 0 <= j < |targets| && Covers(sessionId, targets[j].id) ==> |targets[j].id| <= |targets[i].id|)
    && (forall j :: 0 <= j < i && Covers(sessionId, targets[j].id) ==> |targets[j].id| < |targets[i].id|)
  }

  lemma {:induction false} OwnerIsAsked(sessionId: string, targets: seq<Target>)
    ensures (exists i: nat :: Owns(sessionId, targets, i)) <==>
      (exists j :: 0 <= j < |targets| && Covers(sessionId, targets[j].id))
    ensures forall i: nat :: Owns(sessionId, targets, i) ==>
      Denamespace(sessionId, targets) ==
        match EnsureApiTarget(targets[i])
        case Some(error) => Err(error)
        case None => Ok(Some((targets[i], Remainder(sessionId, targets[i].id))))
    ensures !(exists i: nat :: Owns(sessionId, targets, i)) ==>
      Denamespace(sessionId, targets) ==
        match SplitRemoteSessionId(sessionId)
        case None => Ok(None)
        case Some(pair) => Err(Unknown(pair.0))
  {
    var found := Candidates(sessionId, targets);
    SortByIsSorted(LongerIdFirst, found);
    if found != [] {
      var k := SortByHead(LongerIdFirst, found);
      var owner := CandidateOrigin(sessionId, targets, k);
      forall j | 0 <= j < |targets| && Covers(sessionId, targets[j].id)
        ensures |targets[j].id| <= |targets[owner].id| && (j < owner ==> |targets[j].id| < |targets[owner].id|)
      {
        CoveringIsCandidate(sessionId, targets, j);
        var l :| 0 <= l < |found| && found[l].0 == targets[j];
        assert LongerIdFirst(found[k], found[l]);
        if j < owner {
          CoveringIsCandidate(sessionId, targets[..owner], j);
          var m :| 0 <= m < k && found[m].0 == targets[j];
          assert !LongerIdFirst(found[m], found[k]);
        }
      }
      assert Owns(sessionId, targets, owner);
      forall i: nat | Owns(sessionId, targets, i) ensures i == owner {
      }
    } else {
      forall j | 0 <= j < |targets| && Covers(sessionId, targets[j].id) ensures false {
        CoveringIsCandidate(sessionId, targets, j);
      }
    }
  }

  /** Denamespacing goes to the owner, if that is a usable API target; without an owner the id is local or an error. */
  lemma {:induction false} DenamespaceGoesToOwner(sessionId: string, targets: seq<Target>)
    ensures (exists i: nat :: Owns(sessionId, targets, i)) <==>
      (exists j :: 0 <= j < |targets| && Covers(sessionId, targets[j].id))
    ensures forall i: nat :: Owns(sessionId, targets, i) ==>
      var owner := targets[i];
      Denamespace(sessionId, targets) ==
        if AsciiLower(Trim(owner.kind)) != "swimmers_api" then Err(Unsupported(owner.id))
        else if owner.baseUrl == None || Trim(owner.baseUrl.value) == "" then Err(MissingBaseUrl(owner.id))
        else Ok(Some((owner, sessionId[|owner.id| + 2..])))
    ensures (forall j :: 0 <= j < |targets| ==> !Covers(sessionId, targets[j].id)) ==>
      Denamespace(sessionId, targets) ==
        match SplitRemoteSessionId(sessionId)
        case None => Ok(None)
        case Some(pair) => Err(Unknown(pair.0))
  {
    OwnerIsAsked(sessionId, targets);
    forall i: nat | Owns(sessionId, targets, i) {
      ApiTargetMeaning(targets[i]);
    }
  }

  /** The remote id contains, or completes, a separator that still has text behind it. */
  ghost predicate OffersLaterSeparator(remoteId: string) {
    || (|remoteId| >= 2 && remoteId[0] == ':')
    || exists q :: OccursAt(remoteId, SEPARATOR, q) && q + |SEPARATOR| < |remoteId|
  }

  /** The first target with this id is a usable API target, and the id it named comes back from it. */
  ghost predicate ComesBack(targetId: string, remoteId: string, targets: seq<Target>, k: nat)
    requires k < |targets|
  {
    Denamespace(NamespaceSessionId(targetId, remoteId), targets) == Ok(Some((targets[k], remoteId)))
  }

  ghost predicate FirstUsable(targetId: string, targets: seq<Target>, k: nat) {
    && k < |targets| && targets[k].id == targetId && EnsureApiTarget(targets[k]).None?
    && forall j :: 0 <= j < k ==> targets[j].id != targetId
  }

  /** A target that covers a namespaced id beyond its own target id sits on a separator inside the remote id. */
  lemma LongerOwnerNeedsSeparator(targetId: string, remoteId: string, other: string)
    requires Covers(NamespaceSessionId(targetId, remoteId), other) && |other| > |targetId|
    ensures OffersLaterSeparator(remoteId)
  {
    var s, n := NamespaceSessionId(targetId, remoteId), |targetId|;
    var p := |other|;
    assert (other + SEPARATOR)[p] == s[p] && (other + SEPARATOR)[p + 1] == s[p + 1];
    if p == n + 1 {
      assert s[p + 1] == remoteId[0];
    } else {
      var q := p - n - 2;
      assert s[p] == remoteId[q] && s[p + 1] == remoteId[q + 1];
      assert remoteId[q..q + 2] == SEPARATOR;
      assert OccursAt(remoteId, SEPARATOR, q);
    }
  }

  /** Where the remote id offers a later separator, some longer target id covers the namespaced id. */
  lemma LaterSeparatorHasOwner(targetId: string, remoteId: string) returns (other: string)
    requires OffersLaterSeparator(remoteId)
    ensures |other| > |targetId| && Covers(NamespaceSessionId(targetId, remoteId), other)
  {
    var s, n := NamespaceSessionId(targetId, remoteId), |targetId|;
    var p;
    if |remoteId| >= 2 && remoteId[0] == ':' {
      p := n + 1;
    } else {
      var q :| OccursAt(remoteId, SEPARATOR, q) && q + |SEPARATOR| < |remoteId|;
      assert remoteId[q..q + 2] == SEPARATOR;
      assert remoteId[q] == SEPARATOR[0] && remoteId[q + 1] == SEPARATOR[1];
      p := n + 2 + q;
    }
    other := s[..p];
    assert s[..p + 2] == other + SEPARATOR;
  }

  lemma RecoveredWithoutLaterSeparator(targetId: string, remoteId: string, targets: seq<Target>, k: nat)
    requires remoteId != [] && !OffersLaterSeparator(remoteId) && FirstUsable(targetId, targets, k)
    ensures ComesBack(targetId, remoteId, targets, k)
  {
    var s := NamespaceSessionId(targetId, remoteId);
    assert StartsWith(s, targetId + SEPARATOR) && s[|targetId| + 2..] == remoteId;
    forall j | 0 <= j < |targets| && Covers(s, targets[j].id)
      ensures |targets[j].id| <= |targetId| && (j < k ==> |targets[j].id| < |targetId|)
    {
      if |targets[j].id| > |targetId| {
        LongerOwnerNeedsSeparator(targetId, remoteId, targets[j].id);
      } else if |targets[j].id| == |targetId| {
        assert targets[j].id == (targets[j].id + SEPARATOR)[..|targetId|] == s[..|targetId|] == targetId;
      }
    }
    assert Owns(s, targets, k);
    OwnerIsAsked(s, targets);
  }

  lemma LostToLongerTarget(targetId: string, remoteId: string) returns (targets: seq<Target>)
    requires OffersLaterSeparator(remoteId)
    ensures FirstUsable(targetId, targets, 0) && !ComesBack(targetId, remoteId, targets, 0)
  {
    var s := NamespaceSessionId(targetId, remoteId);
    var other := LaterSeparatorHasOwner(targetId, remoteId);
    var t := SomeUsableTarget();
    targets := [t.(id := targetId), t.(id := other)];
    OwnerIsAsked(s, targets);
    assert Owns(s, targets, 1);
  }

  /** A remote id survives every configuration exactly when it offers no later separator. */
  lemma RecoveredUnderEveryConfiguration(targetId: string, remoteId: string)
    requires remoteId != []
    ensures (forall targets: seq<Target>, k: nat :: FirstUsable(targetId, targets, k) ==>
      ComesBack(targetId, remoteId, targets, k))
       <==> !OffersLaterSeparator(remoteId)
  {
    if OffersLaterSeparator(remoteId) {
      var targets := LostToLongerTarget(targetId, remoteId);
    } else {
      forall targets: seq<Target>, k: nat | FirstUsable(targetId, targets, k)
        ensures ComesBack(targetId, remoteId, targets, k)
      {
        RecoveredWithoutLaterSeparator(targetId, remoteId, targets, k);
      }
    }
  }

  lemma PlainKind(kind: string)
    requires |kind| > 3 && !IsWhitespace(kind[0]) && !IsWhitespace(kind[|kind| - 1])
    requires forall i :: 0 <= i < |kind| ==> !('A' <= kind[i] <= 'Z')
    ensures NormalizedTargetKind(kind) == kind
  {
    TrimKeeps(kind);
    LowerKeeps(kind);
  }

  lemma LowerWord(word: string)
    requires word == API_KIND
    ensures |word| > 3 && !IsWhitespace(word[0]) && !IsWhitespace(word[|word| - 1])
    ensures forall i :: 0 <= i < |word| ==> !('A' <= word[i] <= 'Z')
  {
  }

  lemma {:induction false} ApiKind(kind: string)
    requires kind == API_KIND
    ensures NormalizedTargetKind(kind) == kind
  {
    LowerWord(kind);
    PlainKind(kind);
  }

  /** Some target is usable, and whether a target is usable does not depend on its id. */
  lemma {:induction false} SomeUsableTarget() returns (t: Target)
    ensures forall id :: EnsureApiTarget(t.(id := id)).None?
  {
    var kind :| kind == API_KIND;
    ApiKind(kind);
    t := Target("", kind, Some(['h']));
    TrimKeeps(['h']);
  }
}
