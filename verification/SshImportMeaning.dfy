/** What an import proposes, read off the traversal without any parser state; and the round trip of a printed config. */
module SshImportMeaning {
  import opened Wrappers
  import opened Text
  import opened Seqs
  import opened SshTokens
  import opened SshLines
  import opened SshImport

  // ----- the declarative reading: each Host line with the lines that belong to it

  predicate EndsBlock(e: Event) {
    e.HostLine? || e.MatchLine? || e.IncludeLine? || e.EndOfFile?
  }

  /** What comes before the next Host, Match, Include or end of file. */
  function Segment(events: seq<Event>): seq<Event> {
    if events == [] || EndsBlock(events[0]) then [] else [events[0]] + Segment(events[1..])
  }

  /** The value of the last HostName line, or `default` where there is none. */
  function LastHostName(segment: seq<Event>, default: Option<string>): Option<string> {
    if segment == [] then default
    else
      var last := segment[|segment| - 1];
      if last.HostNameLine? then last.value else LastHostName(segment[..|segment| - 1], default)
  }

  /** The value of the last User line, or `default` where there is none. */
  function LastUser(segment: seq<Event>, default: Option<string>): Option<string> {
    if segment == [] then default
    else
      var last := segment[|segment| - 1];
      if last.UserLine? then last.value else LastUser(segment[..|segment| - 1], default)
  }

  function Completed(b: Block, segment: seq<Event>): Block {
    b.(hostName := LastHostName(segment, b.hostName), user := LastUser(segment, b.user))
  }

  /**
   * In traversal order, each Host line gives the proposals of its aliases with the last values set in its own segment.
   */
  function Declared(events: seq<Event>): seq<Proposal> {
    if events == [] then []
    else
      var own :=
        match events[0]
        case HostLine(aliases, source, line) =>
          Flush(Completed(Block(aliases, None, None, source, line), Segment(events[1..])))
        case _ => [];
      own + Declared(events[1..])
  }

  lemma {:induction false} LastAfterFirst(e: Event, rest: seq<Event>, hostName: Option<string>, user: Option<string>)
    ensures LastHostName([e] + rest, hostName) == LastHostName(rest, if e.HostNameLine? then e.value else hostName)
    ensures LastUser([e] + rest, user) == LastUser(rest, if e.UserLine? then e.value else user)
  {
    var all := [e] + rest;
    if rest == [] {
      assert all[..0] == [];
    } else {
      assert all[..|all| - 1] == [e] + rest[..|rest| - 1];
      LastAfterFirst(e, rest[..|rest| - 1], hostName, user);
    }
  }

  lemma NoAliasesNoProposals(b: Block)
    requires b.aliases == []
    ensures Flush(b) == []
  {
  }

  /** What a parser state is still to propose, once the events ahead of it are counted in. */
  function Outcome(st: ImportState, events: seq<Event>): seq<Proposal> {
    st.proposals + Flush(Completed(st.current, Segment(events))) + Declared(events)
  }

  lemma EndOfBlockFlushes(st: ImportState, e: Event)
    requires EndsBlock(e) && (st.insideMatch ==> st.current.aliases == [])
    ensures Absorb(st, e).proposals == st.proposals + Flush(st.current)
  {
    if st.insideMatch && e.IncludeLine? {
      NoAliasesNoProposals(st.current);
    }
  }

  lemma EndOfBlock(st: ImportState, e: Event, rest: seq<Event>)
    requires EndsBlock(e) && (st.insideMatch ==> st.current.aliases == [])
    ensures Outcome(st, [e] + rest) == Outcome(Absorb(st, e), rest)
  {
    var events, next := [e] + rest, Absorb(st, e);
    assert events[1..] == rest;
    assert Segment(events) == [] && Completed(st.current, []) == st.current;
    EndOfBlockFlushes(st, e);
    if e.HostLine? {
      var own := Flush(Completed(next.current, Segment(rest)));
      assert next.current == Block(e.aliases, None, None, e.source, e.line);
      AppendAssociates(next.proposals, own, Declared(rest));
    } else {
      assert Declared(events) == [] + Declared(rest);
      NoAliasesNoProposals(Completed(next.current, Segment(rest)));
      assert next.proposals + [] == next.proposals;
    }
  }

  lemma InsideBlock(st: ImportState, e: Event, rest: seq<Event>)
    requires !EndsBlock(e) && (st.insideMatch ==> st.current.aliases == [])
    ensures Outcome(st, [e] + rest) == Outcome(Absorb(st, e), rest)
  {
    var events := [e] + rest;
    assert events[1..] == rest;
    assert Segment(events) == [e] + Segment(rest);
    assert Declared(events) == [] + Declared(rest);
    LastAfterFirst(e, Segment(rest), st.current.hostName, st.current.user);
    if st.insideMatch {
      NoAliasesNoProposals(Completed(st.current, Segment(events)));
      NoAliasesNoProposals(Completed(st.current, Segment(rest)));
    } else {
      assert Completed(st.current, Segment(events)) == Completed(Absorb(st, e).current, Segment(rest));
    }
  }

  /** The block in the making never leaks: the parser's final proposals are the declared ones. */
  lemma {:induction false} AbsorbMeaning(st: ImportState, events: seq<Event>)
    requires if events == [] then st.current.aliases == [] else events[|events| - 1] == EndOfFile
    requires st.insideMatch ==> st.current.aliases == []
    ensures AbsorbAll(st, events).proposals == Outcome(st, events)
    decreases |events|
  {
    if events == [] {
      NoAliasesNoProposals(Completed(st.current, Segment(events)));
    } else {
      var e, rest := events[0], events[1..];
      assert events == [e] + rest;
      AbsorbMeaning(Absorb(st, e), rest);
      if EndsBlock(e) {
        EndOfBlock(st, e, rest);
      } else {
        InsideBlock(st, e, rest);
      }
    }
  }

  predicate EndsFile(events: seq<Event>) {
    events != [] && events[|events| - 1] == EndOfFile
  }

  lemma ThenEndsFile(a: Walk, b: Walk)
    requires EndsFile(b.events)
    ensures EndsFile(a.Then(b).events)
  {
  }

  lemma {:induction false} FirstLineThenRest(
      fs: FileSystem, source: string, lines: seq<string>, i: nat, base: Option<string>, insideMatch: bool,
      visited: set<string>)
    requires i < |lines|
    ensures var line := WalkLine(fs, source, lines[i], i + 1, base, insideMatch, visited);
      WalkLines(fs, source, lines, i, base, insideMatch, visited)
        == line.Then(WalkLines(fs, source, lines, i + 1, base, line.insideMatch, line.visited))
  {
  }

  lemma {:induction false} WalkEndsFile(
      fs: FileSystem, source: string, lines: seq<string>, i: nat, base: Option<string>, insideMatch: bool,
      visited: set<string>)
    requires i <= |lines|
    ensures EndsFile(WalkLines(fs, source, lines, i, base, insideMatch, visited).events)
    decreases |lines| - i
  {
    if i < |lines| {
      var line := WalkLine(fs, source, lines[i], i + 1, base, insideMatch, visited);
      FirstLineThenRest(fs, source, lines, i, base, insideMatch, visited);
      WalkEndsFile(fs, source, lines, i + 1, base, line.insideMatch, line.visited);
      ThenEndsFile(line, WalkLines(fs, source, lines, i + 1, base, line.insideMatch, line.visited));
    }
  }

  const FRESH: ImportState := ImportState([], NO_BLOCK, false)

  lemma FreshMeaning(events: seq<Event>)
    requires EndsFile(events)
    ensures AbsorbAll(FRESH, events).proposals == Declared(events)
  {
    AbsorbMeaning(FRESH, events);
    NoAliasesNoProposals(Completed(NO_BLOCK, Segment(events)));
  }

  /** Importing a config text: Include lines are not followed. */
  method ProposalsFromConfig(fs: FileSystem, lines: seq<string>) returns (proposals: seq<Proposal>)
    ensures proposals == Declared(WalkLines(fs, "ssh_config", lines, 0, None, false, {}).events)
  {
    var parser := new SshImportParser();
    var visited, warnings := parser.ParseConfig(fs, "ssh_config", lines, None, {}, []);
    proposals := parser.proposals;
    WalkEndsFile(fs, "ssh_config", lines, 0, None, false, {});
    FreshMeaning(WalkLines(fs, "ssh_config", lines, 0, None, false, {}).events);
  }

  datatype Report = Report(proposals: seq<Proposal>, warnings: seq<string>)

  /** Importing a file and everything it includes; only the start file has to be readable. */
  method ReportFromPath(fs: FileSystem, path: string) returns (r: Result<Report, string>)
    ensures r.Err? <==> path !in fs.files
    ensures r.Err? ==> r.error == "ssh-import failed to read " + path
    ensures r.Ok? ==>
      r.value == Report(Declared(WalkFile(fs, path, false, {}).events), WalkFile(fs, path, false, {}).warnings)
  {
    if path !in fs.files {
      return Err("ssh-import failed to read " + path);
    }
    var parser := new SshImportParser();
    var visited, warnings := parser.ParseFileContents(fs, path, {}, []);
    FileEndsFile(fs, path);
    FreshMeaning(WalkFile(fs, path, false, {}).events);
    r := Ok(Report(parser.proposals, warnings));
  }

  lemma {:induction false} FileEndsFile(fs: FileSystem, path: string)
    requires path in fs.files
    ensures EndsFile(WalkFile(fs, path, false, {}).events)
  {
    var file := fs.files[path];
    UnvisitedShrinks(fs, {}, {file.identity});
    assert {} + {file.identity} == {file.identity};
    WalkEndsFile(fs, path, file.lines, 0, file.parent, false, {file.identity});
  }

  // ----- every file once, and Include exactly outside Match blocks

  /** Whether the last Host or Match line is a Match line. */
  function InMatchAfter(events: seq<Event>, before: bool): bool {
    if events == [] then before
    else
      var last := events[|events| - 1];
      if last.MatchLine? then true else if last.HostLine? then false else InMatchAfter(events[..|events| - 1], before)
  }

  /** The identities of the files that were parsed, in order. */
  function Entered(events: seq<Event>): seq<string> {
    if events == [] then []
    else
      var last := events[|events| - 1];
      Entered(events[..|events| - 1]) + if last.Enter? then [last.identity] else []
  }

  /** The flag is the last header's; each identity entered is new, and is entered once. */
  ghost predicate Sound(fs: FileSystem, w: Walk, insideMatch: bool, visited: set<string>) {
    && w.insideMatch == InMatchAfter(w.events, insideMatch)
    && (forall id :: id in w.visited <==> id in visited || id in Entered(w.events))
    && NoDup(Entered(w.events))
    && (forall id :: id in Entered(w.events) ==> id !in visited && id in Identities(fs))
  }

  lemma {:induction false} EventsAppend(a: seq<Event>, b: seq<Event>, before: bool)
    ensures InMatchAfter(a + b, before) == InMatchAfter(b, InMatchAfter(a, before))
    ensures Entered(a + b) == Entered(a) + Entered(b)
  {
    if b == [] {
      assert a + b == a;
    } else {
      assert (a + b)[..|a + b| - 1] == a + b[..|b| - 1];
      EventsAppend(a, b[..|b| - 1], before);
    }
  }

  lemma SoundThen(fs: FileSystem, a: Walk, b: Walk, insideMatch: bool, visited: set<string>)
    requires Sound(fs, a, insideMatch, visited) && Sound(fs, b, a.insideMatch, a.visited)
    ensures Sound(fs, a.Then(b), insideMatch, visited)
  {
    EventsAppend(a.events, b.events, insideMatch);
    var ea, eb := Entered(a.events), Entered(b.events);
    forall i, j | 0 <= i < j < |ea + eb| ensures (ea + eb)[i] != (ea + eb)[j] {
      if i < |ea| <= j {
        assert ea[i] in ea && eb[j - |ea|] in eb;
      }
    }
  }

  lemma SoundOne(fs: FileSystem, e: Event, insideMatch: bool, visited: set<string>, warnings: seq<string>)
    requires !e.Enter?
    ensures Sound(fs, Walk([e], InMatchAfter([e], insideMatch), visited, warnings), insideMatch, visited)
    ensures InMatchAfter([e], insideMatch) == (e.MatchLine? || (insideMatch && !e.HostLine?))
  {
    assert [e][..0] == [];
  }

  lemma {:induction false} WalkFileIsSound(fs: FileSystem, path: string, insideMatch: bool, visited: set<string>)
    requires path in fs.files
    ensures Sound(fs, WalkFile(fs, path, insideMatch, visited), insideMatch, visited)
    decreases Unvisited(fs, visited), 0, 0
  {
    var file := fs.files[path];
    if file.identity !in visited {
      var more := visited + {file.identity};
      UnvisitedShrinks(fs, visited, more);
      WalkLinesIsSound(fs, path, file.lines, 0, file.parent, insideMatch, more);
      var enter := Walk([Enter(file.identity)], insideMatch, more, []);
      assert enter.events[..0] == [];
      assert Entered(enter.events) == [file.identity];
      assert Sound(fs, enter, insideMatch, visited);
      SoundThen(fs, enter, WalkLines(fs, path, file.lines, 0, file.parent, insideMatch, more), insideMatch, visited);
    }
  }

  lemma {:induction false} WalkLinesIsSound(
      fs: FileSystem, source: string, lines: seq<string>, i: nat, base: Option<string>, insideMatch: bool,
      visited: set<string>)
    requires i <= |lines|
    ensures Sound(fs, WalkLines(fs, source, lines, i, base, insideMatch, visited), insideMatch, visited)
    decreases Unvisited(fs, visited), 3, |lines| - i
  {
    if i == |lines| {
      SoundOne(fs, EndOfFile, insideMatch, visited, []);
    } else {
      var line := WalkLine(fs, source, lines[i], i + 1, base, insideMatch, visited);
      UnvisitedShrinks(fs, visited, line.visited);
      WalkLineIsSound(fs, source, lines[i], i + 1, base, insideMatch, visited);
      WalkLinesIsSound(fs, source, lines, i + 1, base, line.insideMatch, line.visited);
      SoundThen(fs, line, WalkLines(fs, source, lines, i + 1, base, line.insideMatch, line.visited),
        insideMatch, visited);
    }
  }

  lemma {:induction false} WalkLineIsSound(
      fs: FileSystem, source: string, raw: string, number: nat, base: Option<string>, insideMatch: bool,
      visited: set<string>)
    ensures Sound(fs, WalkLine(fs, source, raw, number, base, insideMatch, visited), insideMatch, visited)
    decreases Unvisited(fs, visited), 2, 1
  {
    match ParseLine(raw)
    case None =>
    case Some(directive) =>
      WalkDirectiveIsSound(fs, source, KindOf(directive.0), directive.1, number, base, insideMatch, visited);
  }

  lemma {:induction false} WalkDirectiveIsSound(
      fs: FileSystem, source: string, kind: Kind, parts: seq<string>, number: nat, base: Option<string>,
      insideMatch: bool, visited: set<string>)
    ensures Sound(fs, WalkDirective(fs, source, kind, parts, number, base, insideMatch, visited), insideMatch, visited)
    decreases Unvisited(fs, visited), 2, 0
  {
    match kind
    case HostKind => SoundOne(fs, HostLine(parts, source, number), insideMatch, visited, []);
    case MatchKind => SoundOne(fs, MatchLine, insideMatch, visited, []);
    case IncludeKind =>
      if insideMatch || base.None? {
        SoundOne(fs, IncludeLine, insideMatch, visited, []);
      } else {
        var expansion := fs.expand(parts, base.value);
        SoundOne(fs, IncludeLine, insideMatch, visited, expansion.warnings);
        WalkPathsIsSound(fs, expansion.paths, insideMatch, visited);
        SoundThen(fs, Walk([IncludeLine], insideMatch, visited, expansion.warnings),
                  WalkPaths(fs, expansion.paths, insideMatch, visited), insideMatch, visited);
      }
    case HostNameKind => SoundOne(fs, HostNameLine(First(parts)), insideMatch, visited, []);
    case UserKind => SoundOne(fs, UserLine(First(parts)), insideMatch, visited, []);
    case OtherKind =>
  }

  lemma {:induction false} WalkPathsIsSound(fs: FileSystem, paths: seq<string>, insideMatch: bool, visited: set<string>)
    ensures Sound(fs, WalkPaths(fs, paths, insideMatch, visited), insideMatch, visited)
    decreases Unvisited(fs, visited), 1, |paths|
  {
    if paths != [] {
      var first := WalkPath(fs, paths[0], insideMatch, visited);
      UnvisitedShrinks(fs, visited, first.visited);
      if paths[0] in fs.files {
        WalkFileIsSound(fs, paths[0], insideMatch, visited);
      }
      WalkPathsIsSound(fs, paths[1..], first.insideMatch, first.visited);
      SoundThen(fs, first, WalkPaths(fs, paths[1..], first.insideMatch, first.visited), insideMatch, visited);
    }
  }

  /** Includes may be cyclic: still every file identity is parsed at most once. */
  lemma EveryFileOnce(fs: FileSystem, path: string)
    requires path in fs.files
    ensures var entered := Entered(WalkFile(fs, path, false, {}).events);
      NoDup(entered) && (forall id :: id in entered ==> id in Identities(fs)) && |entered| <= |Identities(fs)|
  {
    WalkFileIsSound(fs, path, false, {});
    NoDupFits(Entered(WalkFile(fs, path, false, {}).events), Identities(fs));
  }

  lemma {:induction false} NoDupFits(s: seq<string>, all: set<string>)
    requires NoDup(s) && forall x :: x in s ==> x in all
    ensures |s| <= |all|
  {
    if s != [] {
      assert s == [s[0]] + s[1..];
      NoDupFits(s[1..], all - {s[0]});
    }
  }

  // ----- printing a config and importing it

  datatype HostEntry = HostEntry(aliases: seq<string>, hostName: Option<string>, user: Option<string>)

  function Setting(keyword: string, value: Option<string>): seq<string> {
    if value.None? then [] else [PrintDirective(keyword, [value.value])]
  }

  /** The three keywords, in whatever case the printer writes them. */
  datatype Keywords = Keywords(host: string, hostName: string, user: string)

  predicate Proper(k: Keywords) {
    && IsBareKeyword(k.host) && IsBareKeyword(k.hostName) && IsBareKeyword(k.user)
    && KindOf(k.host) == HostKind && KindOf(k.hostName) == HostNameKind && KindOf(k.user) == UserKind
  }

  function PrintEntry(k: Keywords, e: HostEntry): seq<string> {
    [PrintDirective(k.host, e.aliases)] + Setting(k.hostName, e.hostName) + Setting(k.user, e.user)
  }

  /** How many lines an entry takes. */
  function EntryLength(e: HostEntry): nat {
    1 + (if e.hostName.Some? then 1 else 0) + (if e.user.Some? then 1 else 0)
  }

  function PrintConfig(k: Keywords, entries: seq<HostEntry>): seq<string> {
    if entries == [] then [] else PrintEntry(k, entries[0]) + PrintConfig(k, entries[1..])
  }

  /** The proposals that the entries stand for; `line` is the number of the first entry's Host line. */
  function EntryProposals(entries: seq<HostEntry>, source: string, line: nat): seq<Proposal> {
    if entries == [] then []
    else
      var e := entries[0];
      Flush(Block(e.aliases, e.hostName, e.user, source, line)) +
        EntryProposals(entries[1..], source, line + EntryLength(e))
  }

  function SettingEvents(kind: Kind, value: Option<string>): seq<Event> {
    if value.None? then [] else if kind == HostNameKind then [HostNameLine(value)] else [UserLine(value)]
  }

  function EntryEvents(e: HostEntry, source: string, line: nat): seq<Event> {
    [HostLine(e.aliases, source, line)] + SettingEvents(HostNameKind, e.hostName) + SettingEvents(UserKind, e.user)
  }

  function ConfigEvents(entries: seq<HostEntry>, source: string, line: nat): seq<Event> {
    if entries == [] then [EndOfFile]
    else EntryEvents(entries[0], source, line) + ConfigEvents(entries[1..], source, line + EntryLength(entries[0]))
  }

  /** The events of one line where Include lines are not followed. */
  function LineEvents(source: string, raw: string, number: nat): seq<Event> {
    match ParseLine(raw)
    case None => []
    case Some(directive) => DirectiveEvents(source, KindOf(directive.0), directive.1, number)
  }

  function DirectiveEvents(source: string, kind: Kind, parts: seq<string>, number: nat): seq<Event> {
    match kind
    case HostKind => [HostLine(parts, source, number)]
    case MatchKind => [MatchLine]
    case IncludeKind => [IncludeLine]
    case HostNameKind => [HostNameLine(First(parts))]
    case UserKind => [UserLine(First(parts))]
    case OtherKind => []
  }

  function LineReader(source: string): (string, nat) -> seq<Event> {
    (raw: string, number: nat) => LineEvents(source, raw, number)
  }

  /** The events of the lines one after the other; the first has the given number. */
  function FlatEvents(source: string, lines: seq<string>, number: nat): seq<Event> {
    FlatNumbered(LineReader(source), lines, number)
  }

  lemma PlainLine(fs: FileSystem, source: string, raw: string, number: nat, insideMatch: bool, visited: set<string>)
    ensures WalkLine(fs, source, raw, number, None, insideMatch, visited).events == LineReader(source)(raw, number)
  {
    var directive := ParseLine(raw);
    if directive.Some? {
      PlainDirective(fs, source, KindOf(directive.value.0), directive.value.1, number, insideMatch, visited);
    }
  }

  lemma PlainDirective(
      fs: FileSystem, source: string, kind: Kind, parts: seq<string>, number: nat, insideMatch: bool,
      visited: set<string>)
    ensures WalkDirective(fs, source, kind, parts, number, None, insideMatch, visited).events ==
      DirectiveEvents(source, kind, parts, number)
  {
  }

  /** Without a directory to include from, the traversal is the lines one after the other, whatever the Match flag. */
  lemma {:induction false} PlainWalk(
      fs: FileSystem, source: string, lines: seq<string>, i: nat, insideMatch: bool, visited: set<string>)
    requires i <= |lines|
    ensures WalkLines(fs, source, lines, i, None, insideMatch, visited).events ==
      FlatEvents(source, lines[i..], i + 1) + [EndOfFile]
    decreases |lines| - i
  {
    var f := LineReader(source);
    if i < |lines| {
      var line := WalkLine(fs, source, lines[i], i + 1, None, insideMatch, visited);
      PlainLine(fs, source, lines[i], i + 1, insideMatch, visited);
      PlainWalk(fs, source, lines, i + 1, line.insideMatch, line.visited);
      FlatNumberedFirst(f, lines, i);
      var rest := FlatNumbered(f, lines[i + 1..], i + 2);
      assert line.events + (rest + [EndOfFile]) == (line.events + rest) + [EndOfFile];
    }
  }

  lemma FlatNumberedFirst(f: (string, nat) -> seq<Event>, lines: seq<string>, i: nat)
    requires i < |lines|
    ensures FlatNumbered(f, lines[i..], i + 1) == f(lines[i], i + 1) + FlatNumbered(f, lines[i + 1..], i + 2)
  {
    assert lines[i..][1..] == lines[i + 1..];
  }

  lemma {:induction false} FlatEventsAppend(source: string, a: seq<string>, b: seq<string>, number: nat)
    ensures FlatEvents(source, a + b, number) == FlatEvents(source, a, number) + FlatEvents(source, b, number + |a|)
  {
    FlatNumberedAppend(LineReader(source), a, b, number);
  }

  lemma {:induction false} PrintedLine(source: string, keyword: string, args: seq<string>, number: nat)
    requires IsBareKeyword(keyword)
    ensures FlatEvents(source, [PrintDirective(keyword, args)], number) ==
      DirectiveEvents(source, KindOf(keyword), args, number)
  {
    QuotingRoundTrip(keyword, args);
    FlatNumberedOne(LineReader(source), PrintDirective(keyword, args), number);
  }

  lemma {:induction false} PrintedSetting(source: string, keyword: string, value: Option<string>, number: nat)
    requires IsBareKeyword(keyword) && KindOf(keyword) in {HostNameKind, UserKind}
    ensures FlatEvents(source, Setting(keyword, value), number) == SettingEvents(KindOf(keyword), value)
  {
    if value.Some? {
      PrintedLine(source, keyword, [value.value], number);
    }
  }

  lemma {:induction false} PrintedEntry(source: string, k: Keywords, e: HostEntry, number: nat)
    requires Proper(k)
    ensures |PrintEntry(k, e)| == EntryLength(e)
    ensures FlatEvents(source, PrintEntry(k, e), number) == EntryEvents(e, source, number)
  {
    var host := [PrintDirective(k.host, e.aliases)];
    var names, users := Setting(k.hostName, e.hostName), Setting(k.user, e.user);
    PrintedLine(source, k.host, e.aliases, number);
    PrintedSetting(source, k.hostName, e.hostName, number + 1);
    PrintedSetting(source, k.user, e.user, number + 1 + |names|);
    FlatEventsAppend(source, host, names, number);
    FlatEventsAppend(source, host + names, users, number);
  }

  function EntriesEvents(entries: seq<HostEntry>, source: string, line: nat): seq<Event> {
    if entries == [] then []
    else EntryEvents(entries[0], source, line) + EntriesEvents(entries[1..], source, line + EntryLength(entries[0]))
  }

  lemma {:induction false} EntriesThenEnd(entries: seq<HostEntry>, source: string, line: nat)
    ensures EntriesEvents(entries, source, line) + [EndOfFile] == ConfigEvents(entries, source, line)
    decreases |entries|
  {
    if entries != [] {
      var next := line + EntryLength(entries[0]);
      EntriesThenEnd(entries[1..], source, next);
      AppendAssociates(EntryEvents(entries[0], source, line), EntriesEvents(entries[1..], source, next), [EndOfFile]);
    }
  }

  lemma {:induction false} PrintedConfig(source: string, k: Keywords, entries: seq<HostEntry>, number: nat)
    requires Proper(k)
    ensures FlatEvents(source, PrintConfig(k, entries), number) == EntriesEvents(entries, source, number)
    decreases |entries|
  {
    if entries != [] {
      PrintedEntry(source, k, entries[0], number);
      PrintedConfig(source, k, entries[1..], number + EntryLength(entries[0]));
      FlatEventsAppend(source, PrintEntry(k, entries[0]), PrintConfig(k, entries[1..]), number);
    }
  }

  lemma {:induction false} ConfigDeclares(entries: seq<HostEntry>, source: string, line: nat)
    ensures ConfigEvents(entries, source, line) != [] && EndsBlock(ConfigEvents(entries, source, line)[0])
    ensures Declared(ConfigEvents(entries, source, line)) == EntryProposals(entries, source, line)
    decreases |entries|
  {
    if entries == [] {
      assert Declared([EndOfFile][1..]) == [];
    } else {
      var e, rest := entries[0], ConfigEvents(entries[1..], source, line + EntryLength(entries[0]));
      ConfigDeclares(entries[1..], source, line + EntryLength(e));
      EntryDeclares(e, source, line, rest);
      assert (EntryEvents(e, source, line) + rest)[0] == HostLine(e.aliases, source, line);
    }
  }

  lemma {:induction false} EntryDeclares(e: HostEntry, source: string, line: nat, rest: seq<Event>)
    requires rest != [] && EndsBlock(rest[0])
    ensures Declared(EntryEvents(e, source, line) + rest) ==
      Flush(Block(e.aliases, e.hostName, e.user, source, line)) + Declared(rest)
  {
    var settings := EntryEvents(e, source, line)[1..];
    var events := EntryEvents(e, source, line) + rest;
    assert events[1..] == settings + rest;
    SettingsSegment(settings, rest);
    LastOfSettings(e, source, line);
  }

  lemma {:induction false} SettingsSegment(settings: seq<Event>, rest: seq<Event>)
    requires forall k :: 0 <= k < |settings| ==> settings[k].HostNameLine? || settings[k].UserLine?
    requires rest != [] && EndsBlock(rest[0])
    ensures Segment(settings + rest) == settings && Declared(settings + rest) == Declared(rest)
  {
    if settings == [] {
      assert settings + rest == rest;
    } else {
      assert (settings + rest)[1..] == settings[1..] + rest;
      SettingsSegment(settings[1..], rest);
    }
  }

  lemma {:induction false} LastOfSettings(e: HostEntry, source: string, line: nat)
    ensures Completed(Block(e.aliases, None, None, source, line), EntryEvents(e, source, line)[1..])
         == Block(e.aliases, e.hostName, e.user, source, line)
  {
    var names, users := SettingEvents(HostNameKind, e.hostName), SettingEvents(UserKind, e.user);
    assert EntryEvents(e, source, line)[1..] == names + users;
    LastSettings(e.hostName, e.user);
  }

  lemma {:induction false} LastSettings(hostName: Option<string>, user: Option<string>)
    ensures LastHostName(SettingEvents(HostNameKind, hostName) + SettingEvents(UserKind, user), None) == hostName
    ensures LastUser(SettingEvents(HostNameKind, hostName) + SettingEvents(UserKind, user), None) == user
  {
    var names, users := SettingEvents(HostNameKind, hostName), SettingEvents(UserKind, user);
    var none: Option<string> := None;
    var settings := names + users;
    if user.Some? {
      assert settings[..|settings| - 1] == names;
    } else {
      assert settings == names;
    }
    if hostName.Some? {
      assert names[..0] == [];
    }
    assert LastHostName(names, none) == hostName && LastUser(names, none) == none;
  }

  /**
   * Printer and importer: a printed config proposes exactly its entries' importable aliases, with their own settings.
   */
  lemma {:induction false} PrintedConfigImports(fs: FileSystem, k: Keywords, entries: seq<HostEntry>)
    requires Proper(k)
    ensures Declared(WalkLines(fs, "ssh_config", PrintConfig(k, entries), 0, None, false, {}).events) ==
      EntryProposals(entries, "ssh_config", 1)
  {
    var lines := PrintConfig(k, entries);
    assert lines[0..] == lines;
    PlainWalk(fs, "ssh_config", lines, 0, false, {});
    PrintedConfig("ssh_config", k, entries, 1);
    EntriesThenEnd(entries, "ssh_config", 1);
    ConfigDeclares(entries, "ssh_config", 1);
  }

  lemma HostKeyword(w: string)
    requires w == "Host"
    ensures IsBareKeyword(w) && KindOf(w) == HostKind
  {
    forall i | 0 <= i < |w| ensures AsciiLower(w)[i] == "host"[i] {
      LowerAt(w, i);
    }
    assert AsciiLower(w) == "host";
  }

  lemma HostNameKeyword(w: string)
    requires w == "HostName"
    ensures IsBareKeyword(w) && KindOf(w) == HostNameKind
  {
    forall i | 0 <= i < |w| ensures AsciiLower(w)[i] == "hostname"[i] {
      LowerAt(w, i);
    }
    assert AsciiLower(w) == "hostname";
  }

  lemma UserKeyword(w: string)
    requires w == "User"
    ensures IsBareKeyword(w) && KindOf(w) == UserKind
  {
    forall i | 0 <= i < |w| ensures AsciiLower(w)[i] == "user"[i] {
      LowerAt(w, i);
    }
    assert AsciiLower(w) == "user";
  }

  lemma UsualKeywords(k: Keywords)
    requires k == Keywords("Host", "HostName", "User")
    ensures Proper(k)
  {
    HostKeyword(k.host);
    HostNameKeyword(k.hostName);
    UserKeyword(k.user);
  }
}
