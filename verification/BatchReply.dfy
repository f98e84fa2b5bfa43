/**
 * The reply to a remote batch launch: accepted only as a permutation of
 * the requested directories, then given back their paths.
 */
module BatchReply {
  import opened Wrappers

  datatype Session = Session(id: string, cwd: string, localCwd: Option<string>, canonicalCwd: Option<string>,
    rest: string)
  datatype Receipt = Receipt(localCwd: Option<string>, rest: string)
  datatype BatchResult = BatchResult(index: nat, cwd: string, ok: bool, receipt: Option<Receipt>,
    session: Option<Session>)

  datatype Malformed = CountMismatch(actual: nat, expected: nat) | OutOfRange(index: nat) | Duplicate(index: nat)

  function Indexes(results: seq<BatchResult>): (r: seq<nat>)
    ensures |r| == |results| && forall i :: 0 <= i < |r| ==> r[i] == results[i].index
  {
    if results == [] then [] else [results[0].index] + Indexes(results[1..])
  }

  /** The indexes are those of `n` directories, each exactly once, in any order. */
  ghost predicate IsPermutation(indexes: seq<nat>, n: nat) {
    |indexes| == n && forall k: nat :: multiset(indexes)[k] == if k < n then 1 else 0
  }

  predicate FirstFault(indexes: seq<nat>, n: nat, i: int) {
    && 0 <= i < |indexes|
    && (indexes[i] >= n || indexes[i] in indexes[..i])
    && forall j :: 0 <= j < i ==> indexes[j] < n && indexes[j] !in indexes[..j]
  }

  function FaultOf(index: nat, n: nat): Malformed {
    if index >= n then OutOfRange(index) else Duplicate(index)
  }

  /** `None` is acceptance. */
  method ValidateIndexes(indexes: seq<nat>, expected: nat) returns (error: Option<Malformed>)
    ensures error.None? <==> IsPermutation(indexes, expected)
    ensures |indexes| != expected ==> error == Some(CountMismatch(|indexes|, expected))
    ensures |indexes| == expected && error.Some? ==>
      exists i :: FirstFault(indexes, expected, i) && error == Some(FaultOf(indexes[i], expected))
  {
    if |indexes| != expected {
      return Some(CountMismatch(|indexes|, expected));
    }
    var seen := new bool[expected](_ => false);
    for i := 0 to |indexes|
      invariant forall j :: 0 <= j < i ==> indexes[j] < expected && indexes[j] !in indexes[..j]
      invariant forall k :: 0 <= k < expected ==> (seen[k] <==> k in indexes[..i])
    {
      var index := indexes[i];
      assert indexes[..i + 1] == indexes[..i] + [index];
      if index >= seen.Length {
        FaultIsNoPermutation(indexes, expected, i);
        assert FirstFault(indexes, expected, i);
        return Some(OutOfRange(index));
      }
      if seen[index] {
        FaultIsNoPermutation(indexes, expected, i);
        assert FirstFault(indexes, expected, i);
        return Some(Duplicate(index));
      }
      seen[index] := true;
    }
    FaultFreeIsPermutation(indexes);
    error := None;
  }

  lemma FaultIsNoPermutation(indexes: seq<nat>, n: nat, i: nat)
    requires i < |indexes| && (indexes[i] >= n || indexes[i] in indexes[..i])
    ensures !IsPermutation(indexes, n)
  {
    var x := indexes[i];
    assert x in multiset(indexes);
    if x in indexes[..i] {
      assert indexes == indexes[..i] + [x] + indexes[i + 1..];
      assert multiset(indexes) == multiset(indexes[..i]) + multiset{x} + multiset(indexes[i + 1..]);
      assert multiset(indexes[..i])[x] >= 1;
    }
  }

  predicate FaultFree(indexes: seq<nat>, n: nat) {
    forall j :: 0 <= j < |indexes| ==> indexes[j] < n && indexes[j] !in indexes[..j]
  }

  function Below(n: nat): set<nat> {
    if n == 0 then {} else Below(n - 1) + {n - 1}
  }

  lemma {:induction false} BelowMeaning(n: nat)
    ensures |Below(n)| == n
    ensures forall k: nat :: k in Below(n) <==> k < n
  {
    if n > 0 {
      BelowMeaning(n - 1);
    }
  }

  function Values(indexes: seq<nat>): set<nat> {
    set k | k in indexes
  }

  lemma {:induction false} FaultFreeValues(indexes: seq<nat>, n: nat)
    requires FaultFree(indexes, n)
    ensures |Values(indexes)| == |indexes|
  {
    if indexes != [] {
      var m := |indexes| - 1;
      assert forall j :: 0 <= j < m ==> indexes[..m][..j] == indexes[..j];
      FaultFreeValues(indexes[..m], n);
      assert indexes == indexes[..m] + [indexes[m]];
      assert Values(indexes) == Values(indexes[..m]) + {indexes[m]};
    }
  }

  lemma {:induction false} FaultFreeCount(indexes: seq<nat>, n: nat, k: nat)
    requires FaultFree(indexes, n)
    ensures multiset(indexes)[k] == if k in indexes then 1 else 0
  {
    if indexes != [] {
      var m := |indexes| - 1;
      assert forall j :: 0 <= j < m ==> indexes[..m][..j] == indexes[..j];
      FaultFreeCount(indexes[..m], n, k);
      assert indexes == indexes[..m] + [indexes[m]];
    }
  }

  lemma FullSubset(a: set<nat>, b: set<nat>)
    requires a <= b && |a| == |b|
    ensures a == b
  {
    assert b == a + (b - a);
    assert |b| == |a| + |b - a|;
  }

  /** Pigeonhole: n distinct indexes below n are all of them. */
  lemma FaultFreeIsPermutation(indexes: seq<nat>)
    requires FaultFree(indexes, |indexes|)
    ensures IsPermutation(indexes, |indexes|)
  {
    var n := |indexes|;
    FaultFreeValues(indexes, n);
    BelowMeaning(n);
    assert Values(indexes) <= Below(n);
    FullSubset(Values(indexes), Below(n));
    forall k: nat ensures multiset(indexes)[k] == if k < n then 1 else 0 {
      FaultFreeCount(indexes, n, k);
      assert k in indexes <==> k in Values(indexes);
    }
  }

  // ----- restoring the requested directories, in place

  function RestoreSession(s: Session, cwd: string): Session {
    s.(cwd := cwd, localCwd := Some(cwd), canonicalCwd := Some(cwd))
  }

  /** A result that names directory `cwd` everywhere, and is otherwise what came back. */
  function Restored(r: BatchResult, cwd: string): BatchResult {
    r.(cwd := cwd,
       receipt := if r.receipt.Some? then Some(r.receipt.value.(localCwd := Some(cwd))) else None,
       session := if r.session.Some? then Some(RestoreSession(r.session.value, cwd)) else None)
  }

  /** A rejected reply is left as it was; in an accepted one every result gets the directory of its own index. */
  method RestoreOriginalCwds(results: array<BatchResult>, dirs: seq<string>) returns (error: Option<Malformed>)
    modifies results
    ensures error.None? <==> IsPermutation(Indexes(old(results[..])), |dirs|)
    ensures error.Some? ==> results[..] == old(results[..])
    ensures error.None? ==> forall i :: 0 <= i < results.Length ==>
      old(results[i]).index < |dirs| && results[i] == Restored(old(results[i]), dirs[old(results[i]).index])
  {
    error := ValidateIndexes(Indexes(results[..]), |dirs|);
    if error.Some? {
      return;
    }
    PermutationInRange(results[..], |dirs|);
    for i := 0 to results.Length
      invariant forall j :: 0 <= j < results.Length ==> old(results[j]).index < |dirs|
      invariant forall j :: 0 <= j < i ==> results[j] == Restored(old(results[j]), dirs[old(results[j]).index])
      invariant forall j :: i <= j < results.Length ==> results[j] == old(results[j])
    {
      var result := results[i];
      var original := dirs[result.index];
      result := result.(cwd := original);
      if result.receipt.Some? {
        result := result.(receipt := Some(result.receipt.value.(localCwd := Some(original))));
      }
      if result.session.Some? {
        result := result.(session := Some(RestoreSession(result.session.value, original)));
      }
      results[i] := result;
    }
  }

  lemma {:induction false} PermutationInRange(results: seq<BatchResult>, n: nat)
    requires IsPermutation(Indexes(results), n)
    ensures forall i :: 0 <= i < |results| ==> results[i].index < n
  {
    forall i | 0 <= i < |results| ensures results[i].index < n {
      InRange(Indexes(results), n, i);
    }
  }

  lemma InRange(indexes: seq<nat>, n: nat, i: nat)
    requires IsPermutation(indexes, n) && i < |indexes|
    ensures indexes[i] < n
  {
    assert indexes[i] in multiset(indexes);
    assert multiset(indexes)[indexes[i]] >= 1;
  }

  ghost predicate OnlyResultFor(results: seq<BatchResult>, dirs: seq<string>, k: nat, i: int) {
    && 0 <= i < |results| && k < |dirs| && results[i].index == k && results[i].cwd == dirs[k]
    && forall j :: 0 <= j < |results| && results[j].index == k ==> j == i
  }

  /** `r` speaks of directory `cwd` wherever it speaks of one: in itself, in its receipt and in its session. */
  predicate SpeaksOf(r: BatchResult, cwd: string) {
    && r.cwd == cwd
    && (r.receipt.Some? ==> r.receipt.value.localCwd == Some(cwd))
    && (r.session.Some? ==>
         var s := r.session.value; s.cwd == cwd && s.localCwd == Some(cwd) && s.canonicalCwd == Some(cwd))
  }

  /** `r` is what came back but for its directories. */
  predicate SameButForDirs(r: BatchResult, came: BatchResult) {
    && r.index == came.index && r.ok == came.ok
    && (r.receipt.Some? <==> came.receipt.Some?) && (r.session.Some? <==> came.session.Some?)
    && (r.receipt.Some? ==> r.receipt.value.rest == came.receipt.value.rest)
    && (r.session.Some? ==>
         r.session.value.id == came.session.value.id && r.session.value.rest == came.session.value.rest)
  }

  /** After restoring, each requested directory has one result: that of its own index, and it speaks of it alone. */
  lemma {:induction false} EveryDirHasOneResult(
      before: seq<BatchResult>, restored: seq<BatchResult>, dirs: seq<string>, k: nat)
    requires IsPermutation(Indexes(before), |dirs|) && |restored| == |before| && k < |dirs|
    requires forall i :: 0 <= i < |before| ==>
      before[i].index < |dirs| && restored[i] == Restored(before[i], dirs[before[i].index])
    ensures exists i ::
      OnlyResultFor(restored, dirs, k, i) && SpeaksOf(restored[i], dirs[k]) && SameButForDirs(restored[i], before[i])
  {
    var indexes := Indexes(before);
    var i := WhereIs(indexes, |dirs|, k);
    forall j | 0 <= j < |restored| && restored[j].index == k ensures j == i {
      assert indexes[j] == before[j].index == k;
    }
    assert before[i].index == k && restored[i] == Restored(before[i], dirs[k]);
    assert OnlyResultFor(restored, dirs, k, i);
  }

  lemma WhereIs(indexes: seq<nat>, n: nat, k: nat) returns (i: nat)
    requires IsPermutation(indexes, n) && k < n
    ensures i < |indexes| && indexes[i] == k && forall j :: 0 <= j < |indexes| && indexes[j] == k ==> j == i
  {
    assert multiset(indexes)[k] == 1;
    assert k in multiset(indexes);
    i :| 0 <= i < |indexes| && indexes[i] == k;
    forall j | 0 <= j < |indexes| && indexes[j] == k ensures j == i {
      if j < i {
        OccursTwice(indexes, j, i);
      } else if i < j {
        OccursTwice(indexes, i, j);
      }
    }
  }

  lemma OccursTwice(indexes: seq<nat>, i: nat, j: nat)
    requires i < j < |indexes| && indexes[i] == indexes[j]
    ensures multiset(indexes)[indexes[i]] >= 2
  {
    assert indexes == indexes[..j] + [indexes[j]] + indexes[j + 1..];
    assert indexes[..j][i] == indexes[i];
    assert indexes[i] in multiset(indexes[..j]);
  }
}
