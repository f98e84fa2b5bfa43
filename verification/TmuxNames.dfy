/** Numeric tmux session names: the next free one, and the bounded retry when another client takes it first. */
module TmuxNames {
  import opened Wrappers
  import opened Text

  predicate IsExactAsciiDigits(s: string) {
    s != [] && forall i :: 0 <= i < |s| ==> IsDigit(s[i])
  }

  function DigitValue(c: char): nat
    requires IsDigit(c)
  {
    c as int - '0' as int
  }

  /** The number that a digit string spells, however long it is. */
  function ValueOf(s: string): nat
    requires forall i :: 0 <= i < |s| ==> IsDigit(s[i])
  {
    if s == [] then 0 else 10 * ValueOf(s[..|s| - 1]) + DigitValue(s[|s| - 1])
  }

  /** `parse::<u64>` of an exact digit string: beyond the type's range there is no number. */
  function NumberOf(name: string): Option<nat> {
    if IsExactAsciiDigits(name) && ValueOf(name) <= U64_MAX then Some(ValueOf(name)) else None
  }

  function ToString(n: nat): string {
    if n < 10 then [('0' as int + n) as char] else ToString(n / 10) + [('0' as int + n % 10) as char]
  }

  function Highest(names: seq<string>): Option<nat> {
    if names == [] then None
    else
      match (NumberOf(names[0]), Highest(names[1..]))
      case (None, rest) => rest
      case (Some(n), None) => Some(n)
      case (Some(n), Some(m)) => Some(if n > m then n else m)
  }

  function NextName(names: seq<string>): Result<string, string> {
    match Highest(names)
    case None => Ok(ToString(0))
    case Some(n) => if n < U64_MAX then Ok(ToString(n + 1)) else Err("numeric tmux session counter exhausted")
  }

  lemma {:induction false} ToStringSpells(n: nat)
    ensures IsExactAsciiDigits(ToString(n)) && ValueOf(ToString(n)) == n
  {
    if n >= 10 {
      ToStringSpells(n / 10);
      var s := ToString(n);
      assert s[..|s| - 1] == ToString(n / 10);
    } else {
      assert ToString(n)[..0] == [];
    }
  }

  /** A number has one spelling that does not begin with a superfluous zero, and that is what is written. */
  predicate IsPlainNumeral(s: string) {
    IsExactAsciiDigits(s) && (|s| > 1 ==> s[0] != '0')
  }

  lemma {:induction false} ToStringIsPlain(n: nat)
    ensures IsPlainNumeral(ToString(n)) && (n > 0 ==> ToString(n)[0] != '0')
  {
    if n >= 10 {
      ToStringIsPlain(n / 10);
    }
  }

  lemma {:induction false} PlainIsPositive(s: string)
    requires IsExactAsciiDigits(s) && s[0] != '0'
    ensures ValueOf(s) > 0
  {
    if |s| > 1 {
      PlainIsPositive(s[..|s| - 1]);
    }
  }

  lemma {:induction false} PlainNumeralIsWritten(s: string)
    requires IsPlainNumeral(s)
    ensures ToString(ValueOf(s)) == s
  {
    var n := |s| - 1;
    assert s == s[..n] + [s[n]];
    if n > 0 {
      PlainIsPositive(s[..n]);
      PlainNumeralIsWritten(s[..n]);
      assert ValueOf(s) / 10 == ValueOf(s[..n]) && ValueOf(s) % 10 == DigitValue(s[n]);
    } else {
      assert ValueOf(s[..n]) == 0;
    }
  }

  lemma {:induction false} HighestMeaning(names: seq<string>)
    ensures Highest(names).None? <==> forall s :: s in names ==> NumberOf(s).None?
    ensures Highest(names).Some? ==> exists s :: s in names && NumberOf(s) == Highest(names)
    ensures forall s :: s in names && NumberOf(s).Some? ==> NumberOf(s).value <= Highest(names).value <= U64_MAX
  {
    if names != [] {
      HighestMeaning(names[1..]);
      assert forall s :: s in names <==> s == names[0] || s in names[1..];
    }
  }

  /**
   * The next name spells the least number above every number in
   * use; leading zeros and overlong digits do not confuse it.
   */
  lemma NextNameIsFresh(names: seq<string>)
    ensures NextName(names).Ok? ==> NextName(names).value !in names
    ensures NextName(names).Ok? ==>
      var next := NumberOf(NextName(names).value);
      && next.Some? && IsPlainNumeral(NextName(names).value)
      && (forall s :: s in names && NumberOf(s).Some? ==> NumberOf(s).value < next.value)
      && (next.value > 0 ==> exists s :: s in names && NumberOf(s) == Some(next.value - 1))
    ensures NextName(names).Err? <==> exists s :: s in names && NumberOf(s) == Some(U64_MAX)
  {
    HighestMeaning(names);
    var n := if Highest(names).None? then 0 else Highest(names).value + 1;
    ToStringSpells(n);
    ToStringIsPlain(n);
  }

  // ----- creating the session

  /**
   * What one attempt meets: the names listed beforehand, the names that exist when the session is created
   * (other clients may have been at work), and whether creation fails for a reason of its own.
   */
  datatype Attempt = Attempt(listed: Result<seq<string>, string>, existing: set<string>, failure: Option<string>)

  datatype Creation = Created | AlreadyExists | Failed(error: string)

  function NameFor(a: Attempt): Result<string, string> {
    match a.listed
    case Err(error) => Err(error)
    case Ok(names) => NextName(names)
  }

  function CreationOf(a: Attempt, name: string): Creation {
    if name in a.existing then AlreadyExists
    else if a.failure.Some? then Failed(a.failure.value)
    else Created
  }

  predicate IsRetried(a: Attempt) {
    NameFor(a).Ok? && CreationOf(a, NameFor(a).value).AlreadyExists?
  }

  /** Attempt `k` ends the loop: all before it lost their name to another client. */
  predicate Decides(attempts: seq<Attempt>, maxAttempts: nat, k: int) {
    0 <= k < maxAttempts && k < |attempts| && !IsRetried(attempts[k])
    && forall j :: 0 <= j < k ==> IsRetried(attempts[j])
  }

  function Exhausted(maxAttempts: nat): string {
    "failed to allocate a numeric tmux session after " + ToString(maxAttempts) + " attempts"
  }

  method CreateNumberedSession(
      attempts: seq<Attempt>, maxAttempts: nat) returns (r: Result<string, string>, creationCalls: nat)
    requires |attempts| >= maxAttempts
    ensures creationCalls <= maxAttempts
    ensures r.Ok? <==>
      exists k :: Decides(attempts, maxAttempts, k) && NameFor(attempts[k]).Ok? &&
        CreationOf(attempts[k], NameFor(attempts[k]).value).Created?
    ensures r.Ok? ==> creationCalls >= 1 && Decides(attempts, maxAttempts, creationCalls - 1)
    ensures r.Ok? ==> var last := attempts[creationCalls - 1];
      NameFor(last) == r && r.value !in last.existing && r.value !in last.listed.value
    ensures r.Err? && (forall k :: 0 <= k < maxAttempts ==> IsRetried(attempts[k])) ==>
      r.error == Exhausted(maxAttempts) && creationCalls == maxAttempts
    ensures r.Err? ==> forall k :: Decides(attempts, maxAttempts, k) ==>
      if NameFor(attempts[k]).Err? then r == NameFor(attempts[k]) && creationCalls == k
      else CreationOf(attempts[k], NameFor(attempts[k]).value) == Failed(r.error) && creationCalls == k + 1
  {
    creationCalls := 0;
    for i := 0 to maxAttempts
      invariant creationCalls == i
      invariant forall j :: 0 <= j < i ==> IsRetried(attempts[j])
    {
      var name := NameFor(attempts[i]);
      if name.Err? {
        assert Decides(attempts, maxAttempts, i);
        return name, creationCalls;
      }
      creationCalls := creationCalls + 1;
      match CreationOf(attempts[i], name.value) {
        case Created =>
          assert Decides(attempts, maxAttempts, i);
          NextNameIsFresh(attempts[i].listed.value);
          return name, creationCalls;
        case AlreadyExists =>
        case Failed(error) =>
          assert Decides(attempts, maxAttempts, i);
          return Err(error), creationCalls;
      }
    }
    r := Err(Exhausted(maxAttempts));
  }

  /** When nobody interferes between listing and creating, the first attempt already decides. */
  lemma QuietWorldNeedsOneAttempt(attempts: seq<Attempt>, maxAttempts: nat, names: seq<string>)
    requires maxAttempts >= 1 && attempts != [] && attempts[0].listed == Ok(names)
    requires forall s :: s in attempts[0].existing ==> s in names
    ensures Decides(attempts, maxAttempts, 0)
  {
    NextNameIsFresh(names);
  }
}
