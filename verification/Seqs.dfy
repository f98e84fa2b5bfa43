/** Iterator-style operations on sequences and how they behave under permutation. */
module Seqs {

  function Map<T, U>(f: T -> U, s: seq<T>): (r: seq<U>)
    ensures |r| == |s|
  {
    if s == [] then [] else [f(s[0])] + Map(f, s[1..])
  }

  lemma {:induction false} MapElements<T, U>(f: T -> U, s: seq<T>)
    ensures forall i {:trigger Map(f, s)[i]} :: 0 <= i < |s| ==> Map(f, s)[i] == f(s[i])
  {
    if s != [] {
      MapElements(f, s[1..]);
    }
  }

  function Filter<T>(p: T -> bool, s: seq<T>): (r: seq<T>)
    ensures |r| <= |s|
  {
    if s == [] then [] else if p(s[0]) then [s[0]] + Filter(p, s[1..]) else Filter(p, s[1..])
  }

  lemma {:induction false} FilterMembers<T(!new)>(p: T -> bool, s: seq<T>)
    ensures forall x :: x in Filter(p, s) <==> x in s && p(x)
  {
    if s != [] {
      FilterMembers(p, s[1..]);
      assert forall x :: x in s <==> x == s[0] || x in s[1..];
    }
  }

  predicate NoDup<T(==)>(s: seq<T>) {
    forall i, j :: 0 <= i < j < |s| ==> s[i] != s[j]
  }

  lemma {:induction false} MapAppend<T, U>(f: T -> U, a: seq<T>, b: seq<T>)
    ensures Map(f, a + b) == Map(f, a) + Map(f, b)
  {
    if a == [] {
      assert a + b == b;
    } else {
      assert (a + b)[1..] == a[1..] + b && (a + b)[0] == a[0];
      MapAppend(f, a[1..], b);
      AppendAssociates([f(a[0])], Map(f, a[1..]), Map(f, b));
    }
  }

  lemma {:induction false} FilterAppend<T(!new)>(p: T -> bool, a: seq<T>, b: seq<T>)
    ensures Filter(p, a + b) == Filter(p, a) + Filter(p, b)
  {
    if a == [] {
      assert a + b == b;
    } else {
      assert (a + b)[1..] == a[1..] + b && (a + b)[0] == a[0];
      FilterAppend(p, a[1..], b);
      var head := if p(a[0]) then [a[0]] else [];
      assert Filter(p, a) == head + Filter(p, a[1..]);
      assert Filter(p, a + b) == head + Filter(p, (a + b)[1..]);
    }
  }

  lemma {:induction false} FilterCount<T(!new)>(p: T -> bool, s: seq<T>, x: T)
    ensures multiset(Filter(p, s))[x] == if p(x) then multiset(s)[x] else 0
  {
    if s != [] {
      FilterCount(p, s[1..], x);
      assert s == [s[0]] + s[1..];
    }
  }

  lemma FilterPermutes<T(!new)>(p: T -> bool, a: seq<T>, b: seq<T>)
    requires multiset(a) == multiset(b)
    ensures multiset(Filter(p, a)) == multiset(Filter(p, b))
  {
    forall x ensures multiset(Filter(p, a))[x] == multiset(Filter(p, b))[x] {
      FilterCount(p, a, x);
      FilterCount(p, b, x);
    }
  }

  lemma SameMembers<T(!new)>(a: seq<T>, b: seq<T>)
    requires multiset(a) == multiset(b)
    ensures |a| == |b|
    ensures forall x :: x in a <==> x in b
  {
    assert |multiset(a)| == |a| && |multiset(b)| == |b|;
    assert forall x :: x in a <==> x in multiset(a);
    assert forall x :: x in b <==> x in multiset(b);
  }

  /** The first element of a permutation can be taken out of the other arrangement. */
  lemma TakeOut<T>(a: seq<T>, b: seq<T>) returns (j: nat)
    requires a != [] && multiset(a) == multiset(b)
    ensures j < |b| && b[j] == a[0]
    ensures multiset(a[1..]) == multiset(b[..j] + b[j + 1..])
    ensures b == b[..j] + [b[j]] + b[j + 1..]
  {
    assert a == [a[0]] + a[1..];
    assert a[0] in multiset(b);
    j :| 0 <= j < |b| && b[j] == a[0];
    assert b == b[..j] + [b[j]] + b[j + 1..];
    assert multiset(b[..j] + b[j + 1..]) == multiset(b) - multiset{a[0]};
    assert multiset(a[1..]) == multiset(a) - multiset{a[0]};
  }

  lemma {:induction false} MapPermutes<T, U>(f: T -> U, a: seq<T>, b: seq<T>)
    requires multiset(a) == multiset(b)
    ensures multiset(Map(f, a)) == multiset(Map(f, b))
  {
    if a == [] {
      assert |multiset(b)| == |b|;
    } else {
      var j := TakeOut(a, b);
      var rest := b[..j] + b[j + 1..];
      MapPermutes(f, a[1..], rest);
      MapAppend(f, b[..j], b[j + 1..]);
      MapAppend(f, b[..j], [b[j]]);
      MapAppend(f, b[..j] + [b[j]], b[j + 1..]);
    }
  }

  lemma {:induction false} NoDupCounts<T(!new)>(s: seq<T>)
    ensures NoDup(s) <==> forall x :: x in s ==> multiset(s)[x] == 1
  {
    if s != [] {
      NoDupCounts(s[1..]);
      assert s == [s[0]] + s[1..];
      assert multiset(s) == multiset(s[1..]) + multiset{s[0]};
      if NoDup(s) {
        assert NoDup(s[1..]);
        assert s[0] !in s[1..];
        forall x | x in s ensures multiset(s)[x] == 1 {
          if x != s[0] { assert x in s[1..]; }
        }
      } else if forall x :: x in s ==> multiset(s)[x] == 1 {
        assert multiset(s)[s[0]] == 1;
        assert s[0] !in s[1..];
        forall x | x in s[1..] ensures multiset(s[1..])[x] == 1 { assert x in s; }
        assert false;
      }
    }
  }

  lemma NoDupPermutes<T(!new)>(a: seq<T>, b: seq<T>)
    requires multiset(a) == multiset(b) && NoDup(a)
    ensures NoDup(b)
  {
    NoDupCounts(a);
    NoDupCounts(b);
    forall x | x in b ensures multiset(b)[x] == 1 {
      assert x in multiset(a);
    }
  }

  /** `into_values`: each value of the map once, in an arbitrary order; `keys` says in which. */
  method IntoValues<K(==), V>(m: map<K, V>) returns (values: seq<V>, keys: seq<K>)
    ensures NoDup(keys) && |values| == |keys| == |m| && forall k :: k in keys <==> k in m
    ensures forall i :: 0 <= i < |keys| ==> values[i] == m[keys[i]]
  {
    var left := m;
    values, keys := [], [];
    while left != map[]
      invariant |values| == |keys| && |keys| + |left| == |m| && NoDup(keys)
      invariant forall k :: k in left ==> k in m && left[k] == m[k] && k !in keys
      invariant forall k :: k in m ==> k in left || k in keys
      invariant forall i :: 0 <= i < |keys| ==> keys[i] in m && values[i] == m[keys[i]]
      decreases |left|
    {
      var k :| k in left;
      values, keys := values + [left[k]], keys + [k];
      left := left - {k};
    }
  }

  lemma LastOrBefore<T>(s: seq<T>)
    requires s != []
    ensures forall x :: x in s <==> x in s[..|s| - 1] || x == s[|s| - 1]
  {
  }

  lemma LastIsAppended<T>(s: seq<T>)
    requires s != []
    ensures s[..|s| - 1] + [s[|s| - 1]] == s
  {
  }

  lemma PrefixGrows<T>(s: seq<T>, i: nat)
    requires i < |s|
    ensures s[..i + 1] == s[..i] + [s[i]]
  {
  }

  lemma AppendAssociates<T>(a: seq<T>, b: seq<T>, c: seq<T>)
    ensures (a + b) + c == a + (b + c)
  {
  }

  /** The pieces that `f` gives for each element and its number, one after the other. */
  function FlatNumbered<T, U>(f: (T, nat) -> seq<U>, s: seq<T>, number: nat): seq<U> {
    if s == [] then [] else f(s[0], number) + FlatNumbered(f, s[1..], number + 1)
  }

  lemma {:induction false} FlatNumberedAppend<T, U>(f: (T, nat) -> seq<U>, a: seq<T>, b: seq<T>, number: nat)
    ensures FlatNumbered(f, a + b, number) == FlatNumbered(f, a, number) + FlatNumbered(f, b, number + |a|)
    decreases |a|
  {
    if a == [] {
      assert a + b == b;
    } else {
      FlatNumberedAppend(f, a[1..], b, number + 1);
      assert (a + b)[0] == a[0] && (a + b)[1..] == a[1..] + b;
      var first, rest, other := f(a[0], number), FlatNumbered(f, a[1..], number + 1), FlatNumbered(f, b, number + |a|);
      assert FlatNumbered(f, a + b, number) == first + (rest + other);
      assert first + (rest + other) == (first + rest) + other;
    }
  }

  lemma FlatNumberedOne<T, U>(f: (T, nat) -> seq<U>, x: T, number: nat)
    ensures FlatNumbered(f, [x], number) == f(x, number)
  {
    assert [x][1..] == [];
    assert f(x, number) + [] == f(x, number);
  }
}
