/**
 * Optimistic concurrency: lock, check `If-Match` and reserve, save (which may fail), publish, unlock.
 * The interleaved protocol is proved to be an atomic versioned register.
 */
module VersionProtocol {
  import opened Wrappers

  /** What the `If-Match` check demands of the current version. */
  predicate Allowed(requested: Option<nat>, current: nat) {
    (requested.Some? ==> requested.value == current) && current < U64_MAX
  }

  // ----- the atomic register that the protocol is meant to be

  datatype Register<C> = Register(version: nat, config: C)

  /** A finished call, as its caller sees it. */
  datatype Outcome<C> =
    | Written(requested: Option<nat>, config: C, newVersion: nat)
    | Conflict(requested: Option<nat>)
    | SaveFailed(requested: Option<nat>)
    | Abandoned(requested: Option<nat>)
    | Seen(config: C, version: nat)
    | SeenConfig(config: C)

  predicate Accepts<C(==)>(r: Register<C>, o: Outcome<C>) {
    match o
    case Written(requested, _, newVersion) => Allowed(requested, r.version) && newVersion == r.version + 1
    case Conflict(requested) => !Allowed(requested, r.version)
    case SaveFailed(requested) => Allowed(requested, r.version)
    case Abandoned(requested) => Allowed(requested, r.version)
    case Seen(config, version) => config == r.config && version == r.version
    case SeenConfig(config) => config == r.config
  }

  function After<C>(r: Register<C>, o: Outcome<C>): Register<C> {
    if o.Written? then Register(o.newVersion, o.config) else r
  }

  function Final<C>(r: Register<C>, history: seq<Outcome<C>>): Register<C> {
    if history == [] then r else After(Final(r, history[..|history| - 1]), history[|history| - 1])
  }

  /** Every outcome is one the register gives in the state that the outcomes before it produce. */
  ghost predicate Legal<C(!new)>(r: Register<C>, history: seq<Outcome<C>>) {
    forall i :: 0 <= i < |history| ==> Accepts(Final(r, history[..i]), history[i])
  }

  // ----- the calls themselves, one at a time

  class VersionCounter {
    var value: nat

    constructor (start: nat)
      ensures value == start
    {
      value := start;
    }
  }

  /** `u64::checked_add(1)`. */
  function CheckedSuccessor(n: nat): Option<nat> {
    if n < U64_MAX then Some(n + 1) else None
  }

  /** A reservation is the version that a commit would publish; not committing leaves the counter alone. */
  method ReserveVersionLocked(counter: VersionCounter, requested: Option<nat>) returns (reservation: Option<nat>)
    requires counter.value <= U64_MAX
    ensures reservation.Some? <==> Allowed(requested, counter.value)
    ensures reservation.Some? ==> reservation.value == counter.value + 1 <= U64_MAX
  {
    var current := counter.value;
    match requested {
      case Some(expected) =>
        if current != expected {
          return None;
        }
        reservation := CheckedSuccessor(expected);
      case None =>
        reservation := CheckedSuccessor(current);
    }
  }

  method Commit(counter: VersionCounter, reservation: nat) returns (newVersion: nat)
    modifies counter
    ensures counter.value == newVersion == reservation
  {
    counter.value := reservation;
    newVersion := reservation;
  }

  /** Runtime config and its counter, as seen by a caller that holds the write lock. */
  class ThoughtConfigState<C(==)> {
    var config: C
    const counter: VersionCounter

    constructor (config: C, counter: VersionCounter)
      ensures this.config == config && this.counter == counter
    {
      this.config := config;
      this.counter := counter;
    }

    ghost function Contents(): Register<C>
      reads this, counter
    {
      Register(counter.value, config)
    }

    /** `saved` is what the file store answers. */
    method PersistUpdate(config: C, requested: Option<nat>, saved: bool) returns (o: Outcome<C>)
      requires counter.value <= U64_MAX
      modifies this, counter
      ensures Accepts(old(Contents()), o) && Contents() == After(old(Contents()), o)
      ensures o == if !Allowed(requested, old(counter.value)) then Conflict(requested)
                   else if !saved then SaveFailed(requested)
                   else Written(requested, config, old(counter.value) + 1)
    {
      var reservation := ReserveVersionLocked(counter, requested);
      if reservation.None? {
        return Conflict(requested);
      }
      if !saved {
        return SaveFailed(requested);
      }
      this.config := config;
      var newVersion := Commit(counter, reservation.value);
      o := Written(requested, config, newVersion);
    }
  }

  /** The published selection: no save, and the counter is stored before the selection. */
  class PublishedSelection<C(==)> {
    var selection: C
    const counter: VersionCounter

    constructor (selection: C, counter: VersionCounter)
      ensures this.selection == selection && this.counter == counter
    {
      this.selection := selection;
      this.counter := counter;
    }

    ghost function Contents(): Register<C>
      reads this, counter
    {
      Register(counter.value, selection)
    }

    method Publish(selection: C, requested: Option<nat>) returns (o: Outcome<C>)
      requires counter.value <= U64_MAX
      modifies this, counter
      ensures Accepts(old(Contents()), o) && Contents() == After(old(Contents()), o)
      ensures o == if !Allowed(requested, old(counter.value)) then Conflict(requested)
                   else Written(requested, selection, old(counter.value) + 1)
    {
      var reservation := ReserveVersionLocked(counter, requested);
      if reservation.None? {
        return Conflict(requested);
      }
      var newVersion := Commit(counter, reservation.value);
      this.selection := selection;
      o := Written(requested, selection, newVersion);
    }
  }

  // ----- the same calls, interleaved step by step

  /** The two clients differ in whether they save, in the order of their two stores, and in what their readers take. */
  datatype Client = ThoughtConfig | Selection

  datatype Process<C> =
    | Resting
    | Locked(requested: Option<nat>, config: C)
    | Refused(requested: Option<nat>)
    | Reserved(requested: Option<nat>, config: C, newVersion: nat)
    | Failed(requested: Option<nat>)
    | Saved(requested: Option<nat>, config: C, newVersion: nat)
    | HalfStored(requested: Option<nat>, config: C, newVersion: nat)
    | Stored(requested: Option<nat>, config: C, newVersion: nat)
    | Reading
    | ReadVersion(version: nat)
    | ReadBoth(version: nat, config: C)
    | ReadConfig(config: C)

  datatype State<C> = State(version: nat, config: C, writer: Option<nat>, readers: set<nat>,
    processes: map<nat, Process<C>>)
  {
    function Of(pid: nat): Process<C> {
      if pid in processes then processes[pid] else Resting
    }

    function With(pid: nat, p: Process<C>): State<C> {
      this.(processes := processes[pid := p])
    }
  }

  datatype Action<C> =
    | AcquireWrite(requested: Option<nat>, config: C)
    | CheckVersion
    | Save(ok: bool)
    | Cancel
    | StoreFirst
    | StoreSecond
    | ReleaseWrite
    | AcquireRead
    | LoadVersion
    | CloneConfig
    | ReleaseRead

  /**
   * One step of one process: the next state, and the outcome when
   * the step ends a call. `None`: the step is not enabled.
   */
  function Next<C>(client: Client, s: State<C>, pid: nat, a: Action<C>): Option<(State<C>, Option<Outcome<C>>)> {
    match (a, s.Of(pid))
    case (AcquireWrite(requested, config), Resting) =>
      if s.writer.None? && s.readers == {}
      then Some((s.(writer := Some(pid)).With(pid, Locked(requested, config)), None))
      else None
    case (CheckVersion, Locked(requested, config)) =>
      if requested.Some? && s.version != requested.value then Some((s.With(pid, Refused(requested)), None))
      else
        (match CheckedSuccessor(s.version)
         case None => Some((s.With(pid, Refused(requested)), None))
         case Some(newVersion) => Some((s.With(pid, Reserved(requested, config, newVersion)), None)))
    case (Save(ok), Reserved(requested, config, newVersion)) =>
      if client == Selection then None
      else Some((s.With(pid, if ok then Saved(requested, config, newVersion) else Failed(requested)), None))
    case (Cancel, Reserved(requested, _, _)) =>
      // The caller went away while the save was pending: the lock and the reservation are dropped.
      if client == Selection then None
      else Some((s.(writer := None).With(pid, Resting), Some(Abandoned(requested))))
    case (StoreFirst, Saved(requested, config, newVersion)) =>
      Some((s.(config := config).With(pid, HalfStored(requested, config, newVersion)), None))
    case (StoreFirst, Reserved(requested, config, newVersion)) =>
      if client == ThoughtConfig then None
      else Some((s.(version := newVersion).With(pid, HalfStored(requested, config, newVersion)), None))
    case (StoreSecond, HalfStored(requested, config, newVersion)) =>
      var stored := if client == ThoughtConfig then s.(version := newVersion) else s.(config := config);
      Some((stored.With(pid, Stored(requested, config, newVersion)), None))
    case (ReleaseWrite, Stored(requested, config, newVersion)) =>
      Some((s.(writer := None).With(pid, Resting), Some(Written(requested, config, newVersion))))
    case (ReleaseWrite, Refused(requested)) =>
      Some((s.(writer := None).With(pid, Resting), Some(Conflict(requested))))
    case (ReleaseWrite, Failed(requested)) =>
      Some((s.(writer := None).With(pid, Resting), Some(SaveFailed(requested))))
    case (AcquireRead, Resting) =>
      if s.writer.None? then Some((s.(readers := s.readers + {pid}).With(pid, Reading), None)) else None
    case (LoadVersion, Reading) =>
      if client == Selection then None else Some((s.With(pid, ReadVersion(s.version)), None))
    case (CloneConfig, ReadVersion(version)) =>
      Some((s.With(pid, ReadBoth(version, s.config)), None))
    case (CloneConfig, Reading) =>
      // The published selection is read without its version.
      if client == ThoughtConfig then None else Some((s.With(pid, ReadConfig(s.config)), None))
    case (ReleaseRead, ReadConfig(config)) =>
      Some((s.(readers := s.readers - {pid}).With(pid, Resting), Some(SeenConfig(config))))
    case (ReleaseRead, ReadBoth(version, config)) =>
      Some((s.(readers := s.readers - {pid}).With(pid, Resting), Some(Seen(config, version))))
    case _ => None
  }

  function Start<C>(version: nat, config: C): State<C> {
    State(version, config, None, {}, map[])
  }

  /**
   * A schedule says which process takes which step. Its run ends in a
   * state and leaves a history; `None`: some step was not enabled.
   */
  function Run<C>(client: Client, s: State<C>, schedule: seq<(nat, Action<C>)>): Option<(State<C>, seq<Outcome<C>>)> {
    if schedule == [] then Some((s, []))
    else
      match Run(client, s, schedule[..|schedule| - 1])
      case None => None
      case Some(before) =>
        var (pid, action) := schedule[|schedule| - 1];
        match Next(client, before.0, pid, action)
        case None => None
        case Some(step) => Some((step.0, if step.1.None? then before.1 else before.1 + [step.1.value]))
  }

  /** How far the writer's stores are visible, relative to the register. */
  predicate WriterAgrees<C(==)>(client: Client, s: State<C>, r: Register<C>, p: Process<C>) {
    match p
    case Locked(_, _) => s.version == r.version && s.config == r.config
    case Refused(requested) => s.version == r.version && s.config == r.config && !Allowed(requested, r.version)
    case Failed(requested) => s.version == r.version && s.config == r.config && Allowed(requested, r.version)
    case Reserved(requested, _, newVersion) =>
      s.version == r.version && s.config == r.config && Allowed(requested, r.version) && newVersion == r.version + 1
    case Saved(requested, _, newVersion) =>
      client == ThoughtConfig && s.version == r.version && s.config == r.config
      && Allowed(requested, r.version) && newVersion == r.version + 1
    case HalfStored(requested, config, newVersion) =>
      && Allowed(requested, r.version) && newVersion == r.version + 1
      && s.version == (if client == ThoughtConfig then r.version else newVersion)
      && s.config == (if client == ThoughtConfig then config else r.config)
    case Stored(requested, config, newVersion) =>
      Allowed(requested, r.version) && newVersion == r.version + 1 && s.version == newVersion && s.config == config
    case _ => false
  }

  predicate ReaderAgrees<C(==)>(r: Register<C>, p: Process<C>) {
    match p
    case Reading => true
    case ReadVersion(version) => version == r.version
    case ReadBoth(version, config) => version == r.version && config == r.config
    case ReadConfig(config) => config == r.config
    case _ => false
  }

  /** The interleaved state stands for register `r`. */
  ghost predicate Represents<C(!new)>(client: Client, s: State<C>, r: Register<C>) {
    && r.version <= U64_MAX
    && (s.writer.None? ==> s.version == r.version && s.config == r.config)
    && (s.writer.Some? ==> s.readers == {} && WriterAgrees(client, s, r, s.Of(s.writer.value)))
    && (forall pid: nat :: pid in s.readers ==> ReaderAgrees(r, s.Of(pid)))
    && (forall pid: nat :: s.Of(pid) != Resting ==> s.writer == Some(pid) || pid in s.readers)
  }

  predicate IsReadStep<C>(a: Action<C>) {
    a.AcquireRead? || a.LoadVersion? || a.CloneConfig? || a.ReleaseRead?
  }

  lemma ReadStepRefines<C(!new)>(client: Client, s: State<C>, r: Register<C>, pid: nat, a: Action<C>)
    requires Represents(client, s, r) && Next(client, s, pid, a).Some? && IsReadStep(a)
    ensures var (s', o) := Next(client, s, pid, a).value;
      Represents(client, s', r) && (o.Some? ==> Accepts(r, o.value) && After(r, o.value) == r)
  {
    var (s', o) := Next(client, s, pid, a).value;
    assert forall other: nat :: other != pid ==> s'.Of(other) == s.Of(other);
  }

  /** A step in the middle of a write call; no outcome yet. */
  lemma InnerWriteStepRefines<C(!new)>(client: Client, s: State<C>, r: Register<C>, pid: nat, a: Action<C>)
    requires Represents(client, s, r) && Next(client, s, pid, a).Some?
    requires a.AcquireWrite? || a.CheckVersion? || a.Save? || a.StoreFirst? || a.StoreSecond?
    ensures var (s', o) := Next(client, s, pid, a).value; o.None? && Represents(client, s', r)
  {
    var s' := Next(client, s, pid, a).value.0;
    assert s'.writer == Some(pid) && s'.readers == {};
    assert forall other: nat :: other != pid ==> s'.Of(other) == s.Of(other) == Resting;
    assert WriterAgrees(client, s', r, s'.Of(pid));
  }

  lemma WriteStepRefines<C(!new)>(client: Client, s: State<C>, r: Register<C>, pid: nat, a: Action<C>)
    requires Represents(client, s, r) && Next(client, s, pid, a).Some? && !IsReadStep(a)
    ensures var (s', o) := Next(client, s, pid, a).value;
      match o
      case None => Represents(client, s', r)
      case Some(outcome) => Accepts(r, outcome) && Represents(client, s', After(r, outcome))
  {
    if a.Cancel? || a.ReleaseWrite? {
      var s' := Next(client, s, pid, a).value.0;
      assert s'.readers == {};
      assert forall other: nat :: other != pid ==> s'.Of(other) == s.Of(other) == Resting;
    } else {
      InnerWriteStepRefines(client, s, r, pid, a);
    }
  }

  /** Every step is either invisible or one accepted operation of the register. */
  lemma StepRefines<C(!new)>(client: Client, s: State<C>, r: Register<C>, pid: nat, a: Action<C>)
    requires Represents(client, s, r) && Next(client, s, pid, a).Some?
    ensures var (s', o) := Next(client, s, pid, a).value;
      match o
      case None => Represents(client, s', r)
      case Some(outcome) => Accepts(r, outcome) && Represents(client, s', After(r, outcome))
  {
    if IsReadStep(a) {
      ReadStepRefines(client, s, r, pid, a);
    } else {
      WriteStepRefines(client, s, r, pid, a);
    }
  }

  /** Linearisation: the history of every schedule is legal for the atomic register. */
  lemma {:induction false} EveryScheduleIsAtomic<C(!new)>(
      client: Client, version: nat, config: C, schedule: seq<(nat, Action<C>)>)
    requires version <= U64_MAX && Run(client, Start(version, config), schedule).Some?
    ensures var (s, history) := Run(client, Start(version, config), schedule).value;
      var r := Register(version, config);
      Legal(r, history) && Represents(client, s, Final(r, history))
  {
    if schedule != [] {
      var n := |schedule| - 1;
      EveryScheduleIsAtomic(client, version, config, schedule[..n]);
      var (s, history) := Run(client, Start(version, config), schedule[..n]).value;
      var r := Register(version, config);
      var now := Final(r, history);
      var (pid, a) := schedule[n];
      StepRefines(client, s, now, pid, a);
      var (s', o) := Next(client, s, pid, a).value;
      if o.Some? {
        var longer := history + [o.value];
        assert longer[..|history|] == history;
        forall i | 0 <= i < |longer| ensures Accepts(Final(r, longer[..i]), longer[i]) {
          if i < |history| {
            assert longer[..i] == history[..i];
          }
        }
      }
    }
  }

  // ----- what atomicity gives

  function Writes<C>(history: seq<Outcome<C>>): nat {
    if history == [] then 0 else Writes(history[..|history| - 1]) + if history[|history| - 1].Written? then 1 else 0
  }

  ghost predicate IsLastWrite<C(!new)>(history: seq<Outcome<C>>, k: int) {
    0 <= k < |history| && history[k].Written? && forall j :: k < j < |history| ==> !history[j].Written?
  }

  lemma LegalPrefix<C(!new)>(r: Register<C>, history: seq<Outcome<C>>, n: nat)
    requires Legal(r, history) && n < |history|
    ensures Legal(r, history[..n]) && Accepts(Final(r, history[..n]), history[n])
  {
    assert forall i :: 0 <= i < n ==> history[..n][..i] == history[..i];
  }

  lemma {:induction false} LastWriteStays<C(!new)>(r: Register<C>, history: seq<Outcome<C>>, k: int)
    requires IsLastWrite(history, k)
    ensures Final(r, history).config == history[k].config
  {
    var n := |history| - 1;
    if k < n {
      assert IsLastWrite(history[..n], k);
      LastWriteStays(r, history[..n], k);
    }
  }

  /** The counter is its start plus the number of committed writes; the config is the last one written. */
  lemma {:induction false} CounterCountsWrites<C(!new)>(r: Register<C>, history: seq<Outcome<C>>)
    requires Legal(r, history)
    ensures Final(r, history).version == r.version + Writes(history)
    ensures Writes(history) == 0 ==> Final(r, history).config == r.config
    ensures forall k :: IsLastWrite(history, k) ==> Final(r, history).config == history[k].config
  {
    if history != [] {
      var n := |history| - 1;
      LegalPrefix(r, history, n);
      CounterCountsWrites(r, history[..n]);
    }
    forall k | IsLastWrite(history, k) ensures Final(r, history).config == history[k].config {
      LastWriteStays(r, history, k);
    }
  }

  lemma {:induction false} VersionsGrow<C(!new)>(r: Register<C>, history: seq<Outcome<C>>, i: nat, j: nat)
    requires Legal(r, history) && i <= j <= |history|
    ensures Final(r, history[..i]).version <= Final(r, history[..j]).version
    decreases j
  {
    if i < j {
      VersionsGrow(r, history, i, j - 1);
      assert history[..j][..j - 1] == history[..j - 1];
    }
  }

  /** Of all writes conditional on the same version, at most one succeeds. */
  lemma OneWritePerVersion<C(!new)>(r: Register<C>, history: seq<Outcome<C>>, i: nat, j: nat)
    requires Legal(r, history) && i < j < |history|
    requires history[i].Written? && history[j].Written?
    ensures history[i].newVersion < history[j].newVersion
    ensures history[j].requested.Some? ==> history[i].requested != history[j].requested
  {
    assert history[..i + 1][..i] == history[..i];
    VersionsGrow(r, history, i + 1, j);
  }

  /** After any schedule, a state without a writer shows the version and config that its committed writes produced. */
  lemma QuiescentState<C(!new)>(client: Client, version: nat, config: C, schedule: seq<(nat, Action<C>)>)
    requires version <= U64_MAX && Run(client, Start(version, config), schedule).Some?
    requires Run(client, Start(version, config), schedule).value.0.writer.None?
    ensures var (s, history) := Run(client, Start(version, config), schedule).value;
      && s.version == version + Writes(history) <= U64_MAX
      && s.config == Final(Register(version, config), history).config
  {
    EveryScheduleIsAtomic(client, version, config, schedule);
    CounterCountsWrites(Register(version, config), Run(client, Start(version, config), schedule).value.1);
  }

  /** Outcomes that are not writes can be struck from the history without changing what it leads to. */
  function WritesOnly<C>(history: seq<Outcome<C>>): seq<Outcome<C>> {
    if history == [] then []
    else
      var n := |history| - 1;
      if history[n].Written? then WritesOnly(history[..n]) + [history[n]] else WritesOnly(history[..n])
  }

  /**
   * Conflicts, failed saves and abandoned calls leave no trace: without them the history is legal and ends the same.
   */
  lemma {:induction false} FailuresLeaveNoTrace<C(!new)>(r: Register<C>, history: seq<Outcome<C>>)
    requires Legal(r, history)
    ensures Legal(r, WritesOnly(history)) && Final(r, WritesOnly(history)) == Final(r, history)
  {
    if history != [] {
      var n := |history| - 1;
      assert forall i :: 0 <= i < n ==> history[..n][..i] == history[..i];
      FailuresLeaveNoTrace(r, history[..n]);
      if history[n].Written? {
        var kept := WritesOnly(history[..n]);
        var longer := kept + [history[n]];
        assert longer[..|kept|] == kept;
        forall i | 0 <= i < |longer| ensures Accepts(Final(r, longer[..i]), longer[i]) {
          if i < |kept| {
            assert longer[..i] == kept[..i];
          }
        }
      }
    }
  }

  /**
   * The lock is what keeps readers consistent: between the two
   * stores the bare state is no register the history produced.
   */
  lemma BareStateIsTorn<C(!new)>(version: nat, config: C, other: C)
    requires version < U64_MAX && config != other
    ensures var schedule := [(0, AcquireWrite(None, other)), (0, CheckVersion), (0, Save(true)), (0, StoreFirst)];
      var run := Run(ThoughtConfig, Start(version, config), schedule);
      run.Some? && run.value.1 == [] && run.value.0.version == version && run.value.0.config == other
  {
    var s0 := Start(version, config);
    var a0: (nat, Action<C>) := (0, AcquireWrite(None, other));
    var a1: (nat, Action<C>) := (0, CheckVersion);
    var a2: (nat, Action<C>) := (0, Save(true));
    var a3: (nat, Action<C>) := (0, StoreFirst);
    assert [a0][..0] == [];
    assert [a0, a1][..1] == [a0];
    assert [a0, a1, a2][..2] == [a0, a1];
    assert [a0, a1, a2, a3][..3] == [a0, a1, a2];
    assert Run(ThoughtConfig, s0, []) == Some((s0, []));
    var r1 := Run(ThoughtConfig, s0, [a0]);
    assert r1.Some? && r1.value.0.Of(0) == Locked(None, other);
    var r2 := Run(ThoughtConfig, s0, [a0, a1]);
    assert r2.Some? && r2.value.0.Of(0) == Reserved(None, other, version + 1);
    var r3 := Run(ThoughtConfig, s0, [a0, a1, a2]);
    assert r3.Some? && r3.value.0.Of(0) == Saved(None, other, version + 1);
  }
}
