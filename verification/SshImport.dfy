/**
 * The SSH config importer: a line-driven parser with Host and Match blocks and recursive Include, and what it means.
 */
module SshImport {
  import opened Wrappers
  import opened Text
  import opened SshTokens

  // ----- the world around it

  /** A readable file: its lines, its canonical identity, and the directory that relative includes start from. */
  datatype File = File(lines: seq<string>, identity: string, parent: Option<string>)

  /** What the Include patterns of one line expand to, in sorted order, and the warnings that expanding them gave. */
  datatype Expansion = Expansion(paths: seq<string>, warnings: seq<string>)

  datatype FileSystem = FileSystem(files: map<string, File>, expand: (seq<string>, string) -> Expansion)

  function Identities(fs: FileSystem): set<string> {
    set path | path in fs.files :: fs.files[path].identity
  }

  /** How many file identities have not been parsed yet. */
  function Unvisited(fs: FileSystem, visited: set<string>): nat {
    |Identities(fs) - visited|
  }

  lemma UnvisitedShrinks(fs: FileSystem, visited: set<string>, more: set<string>)
    requires visited <= more
    ensures Unvisited(fs, more) <= Unvisited(fs, visited)
    ensures forall id :: id in Identities(fs) && id !in visited && id in more ==>
      Unvisited(fs, more) < Unvisited(fs, visited)
  {
    var a, b := Identities(fs) - more, Identities(fs) - visited;
    assert b == a + (b - a);
    assert |b| == |a| + |b - a|;
  }

  // ----- directives

  datatype Kind = HostKind | MatchKind | IncludeKind | HostNameKind | UserKind | OtherKind

  /** The keyword without regard to ASCII case. */
  function KindOf(keyword: string): Kind {
    var lower := AsciiLower(keyword);
    if lower == "host" then HostKind
    else if lower == "match" then MatchKind
    else if lower == "include" then IncludeKind
    else if lower == "hostname" then HostNameKind
    else if lower == "user" then UserKind
    else OtherKind
  }

  function First(args: seq<string>): Option<string> {
    if args == [] then None else Some(args[0])
  }

  datatype Block = Block(aliases: seq<string>, hostName: Option<string>, user: Option<string>, source: string,
    line: nat)

  const NO_BLOCK: Block := Block([], None, None, "", 0)

  datatype Proposal = Proposal(
    id: string, title: string, attachHint: string, bootstrapHint: string, source: string, line: nat,
    hostName: Option<string>, user: Option<string>)

  predicate IsImportable(alias: string) {
    && alias != [] && alias[0] != '!' && alias[0] != '-'
    && forall i :: 0 <= i < |alias| ==> IsAliasChar(alias[i])
  }

  predicate IsAliasChar(c: char) {
    'A' <= c <= 'Z' || 'a' <= c <= 'z' || '0' <= c <= '9' || c == '.' || c == '_' || c == '-' || c == '@' || c == ':'
  }

  function TitleOf(alias: string, hostName: Option<string>, user: Option<string>): string {
    match (user, hostName)
    case (Some(u), Some(h)) => u + "@" + h
    case (None, Some(h)) => h
    case (_, None) => alias
  }

  function ProposalOf(alias: string, b: Block): Proposal {
    Proposal(alias, TitleOf(alias, b.hostName, b.user), "ssh " + alias,
      "ssh " + alias + " 'swimmers serve'", b.source, b.line, b.hostName, b.user)
  }

  /** One proposal for each importable alias of the block, in order. */
  function ProposalsOf(aliases: seq<string>, b: Block): seq<Proposal> {
    if aliases == [] then []
    else (if IsImportable(aliases[0]) then [ProposalOf(aliases[0], b)] else []) + ProposalsOf(aliases[1..], b)
  }

  function Flush(b: Block): seq<Proposal> {
    ProposalsOf(b.aliases, b)
  }

  // ----- the flat reading: what a traversal meets, in order

  datatype Event =
    | Enter(identity: string)
    | HostLine(aliases: seq<string>, source: string, line: nat)
    | MatchLine
    | IncludeLine
    | HostNameLine(value: Option<string>)
    | UserLine(value: Option<string>)
    | EndOfFile

  /** What a stretch of the traversal met, and the flags it leaves behind. */
  datatype Walk = Walk(events: seq<Event>, insideMatch: bool, visited: set<string>, warnings: seq<string>)
  {
    function Then(next: Walk): Walk {
      Walk(events + next.events, next.insideMatch, next.visited, warnings + next.warnings)
    }
  }

  function Stay(insideMatch: bool, visited: set<string>): Walk {
    Walk([], insideMatch, visited, [])
  }

  function WalkFile(fs: FileSystem, path: string, insideMatch: bool, visited: set<string>): (w: Walk)
    requires path in fs.files
    ensures visited <= w.visited
    decreases Unvisited(fs, visited), 0, 0
  {
    var file := fs.files[path];
    if file.identity in visited then Stay(insideMatch, visited)
    else
      UnvisitedShrinks(fs, visited, visited + {file.identity});
      Walk([Enter(file.identity)], insideMatch, visited + {file.identity}, [])
        .Then(WalkLines(fs, path, file.lines, 0, file.parent, insideMatch, visited + {file.identity}))
  }

  /** From line `i` (counting from 0) to the end of the file. */
  function WalkLines(
      fs: FileSystem, source: string, lines: seq<string>, i: nat, base: Option<string>, insideMatch: bool,
      visited: set<string>): (w: Walk)
    requires i <= |lines|
    ensures visited <= w.visited
    decreases Unvisited(fs, visited), 3, |lines| - i
  {
    if i == |lines| then Walk([EndOfFile], insideMatch, visited, [])
    else
      var line := WalkLine(fs, source, lines[i], i + 1, base, insideMatch, visited);
      UnvisitedShrinks(fs, visited, line.visited);
      line.Then(WalkLines(fs, source, lines, i + 1, base, line.insideMatch, line.visited))
  }

  function WalkLine(
      fs: FileSystem, source: string, raw: string, number: nat, base: Option<string>, insideMatch: bool,
      visited: set<string>): (w: Walk)
    ensures visited <= w.visited
    decreases Unvisited(fs, visited), 2, 1
  {
    match ParseLine(raw)
    case None => Stay(insideMatch, visited)
    case Some(directive) =>
      WalkDirective(fs, source, KindOf(directive.0), directive.1, number, base, insideMatch, visited)
  }

  /**
   * A Host or Match line sets the flag; an Include is followed only
   * outside Match blocks and where the file has a directory.
   */
  function WalkDirective(
      fs: FileSystem, source: string, kind: Kind, parts: seq<string>, number: nat, base: Option<string>,
      insideMatch: bool, visited: set<string>)
      : (w: Walk)
    ensures visited <= w.visited
    decreases Unvisited(fs, visited), 2, 0
  {
    match kind
    case HostKind => Walk([HostLine(parts, source, number)], false, visited, [])
    case MatchKind => Walk([MatchLine], true, visited, [])
    case IncludeKind =>
      if insideMatch || base.None? then Walk([IncludeLine], insideMatch, visited, [])
      else
        var expansion := fs.expand(parts, base.value);
        Walk([IncludeLine], insideMatch, visited, expansion.warnings)
          .Then(WalkPaths(fs, expansion.paths, insideMatch, visited))
    case HostNameKind => Walk([HostNameLine(First(parts))], insideMatch, visited, [])
    case UserKind => Walk([UserLine(First(parts))], insideMatch, visited, [])
    case OtherKind => Stay(insideMatch, visited)
  }

  function WalkPaths(fs: FileSystem, paths: seq<string>, insideMatch: bool, visited: set<string>): (w: Walk)
    ensures visited <= w.visited
    decreases Unvisited(fs, visited), 1, |paths|
  {
    if paths == [] then Stay(insideMatch, visited)
    else
      var first := WalkPath(fs, paths[0], insideMatch, visited);
      UnvisitedShrinks(fs, visited, first.visited);
      first.Then(WalkPaths(fs, paths[1..], first.insideMatch, first.visited))
  }

  function WalkPath(fs: FileSystem, path: string, insideMatch: bool, visited: set<string>): (w: Walk)
    ensures visited <= w.visited
    decreases Unvisited(fs, visited), 0, 1
  {
    if path in fs.files then WalkFile(fs, path, insideMatch, visited)
    else Walk([], insideMatch, visited, ["could not read included SSH config " + path])
  }

  // ----- the parser's own reading of those events: one block in the making

  datatype ImportState = ImportState(proposals: seq<Proposal>, current: Block, insideMatch: bool)

  function Append(st: ImportState): ImportState {
    st.(proposals := st.proposals + Flush(st.current), current := NO_BLOCK)
  }

  function Absorb(st: ImportState, e: Event): ImportState {
    match e
    case Enter(_) => st
    case HostLine(aliases, source, line) =>
      Append(st).(current := Block(aliases, None, None, source, line), insideMatch := false)
    case MatchLine => Append(st).(insideMatch := true)
    case IncludeLine => if st.insideMatch then st else Append(st)
    case HostNameLine(value) => if st.insideMatch then st else st.(current := st.current.(hostName := value))
    case UserLine(value) => if st.insideMatch then st else st.(current := st.current.(user := value))
    case EndOfFile => Append(st)
  }

  function AbsorbAll(st: ImportState, events: seq<Event>): ImportState
    decreases |events|
  {
    if events == [] then st else AbsorbAll(Absorb(st, events[0]), events[1..])
  }

  lemma {:induction false} AbsorbAppend(st: ImportState, a: seq<Event>, b: seq<Event>)
    ensures AbsorbAll(st, a + b) == AbsorbAll(AbsorbAll(st, a), b)
    decreases |a|
  {
    if a == [] {
      assert a + b == b;
    } else {
      assert (a + b)[1..] == a[1..] + b;
      AbsorbAppend(Absorb(st, a[0]), a[1..], b);
    }
  }

  // ----- the parser

  class SshImportParser {
    var proposals: seq<Proposal>
    var current: Block
    var insideMatch: bool

    constructor ()
      ensures Contents() == ImportState([], NO_BLOCK, false)
    {
      proposals, current, insideMatch := [], NO_BLOCK, false;
    }

    function Contents(): ImportState
      reads this
    {
      ImportState(proposals, current, insideMatch)
    }

    /** The block in the making is taken out and turned into proposals. */
    method AppendCurrentBlock()
      modifies this
      ensures Contents() == Append(old(Contents()))
    {
      var block := current;
      current := NO_BLOCK;
      for i := 0 to |block.aliases|
        invariant current == NO_BLOCK && insideMatch == old(insideMatch)
        invariant proposals + ProposalsOf(block.aliases[i..], block) == old(proposals) + Flush(block)
      {
        var alias := block.aliases[i];
        assert block.aliases[i..][0] == alias && block.aliases[i..][1..] == block.aliases[i + 1..];
        if IsImportable(alias) {
          proposals := proposals + [ProposalOf(alias, block)];
        }
      }
    }

    /** `w` says what happened to the parser, the visited set and the warnings during a call. */
    twostate predicate Followed(
        w: Walk, visited: set<string>, warnings: seq<string>, visited': set<string>, warnings': seq<string>)
      reads this
    {
      Contents() == AbsorbAll(old(Contents()), w.events) && insideMatch == w.insideMatch
      && visited' == w.visited && warnings' == warnings + w.warnings
    }

    method ParseFileContents(fs: FileSystem, path: string, visited: set<string>, warnings: seq<string>)
      returns (visited': set<string>, warnings': seq<string>)
      requires path in fs.files
      modifies this
      ensures Followed(WalkFile(fs, path, old(insideMatch), visited), visited, warnings, visited', warnings')
      decreases Unvisited(fs, visited), 0
    {
      var file := fs.files[path];
      if file.identity in visited {
        assert warnings + [] == warnings;
        return visited, warnings;
      }
      UnvisitedShrinks(fs, visited, visited + {file.identity});
      visited', warnings' := ParseConfig(fs, path, file.lines, file.parent, visited + {file.identity}, warnings);
      var rest := WalkLines(fs, path, file.lines, 0, file.parent, old(insideMatch), visited + {file.identity});
      AbsorbAppend(old(Contents()), [Enter(file.identity)], rest.events);
      assert [Enter(file.identity)][1..] == [];
      assert [] + rest.warnings == rest.warnings;
    }

    /** The body of the line loop. */
    method ParseLineInto(
        fs: FileSystem, source: string, raw: string, number: nat, base: Option<string>, visited: set<string>,
        warnings: seq<string>)
      returns (visited': set<string>, warnings': seq<string>)
      modifies this
      ensures Followed(WalkLine(fs, source, raw, number, base, old(insideMatch), visited),
        visited, warnings, visited', warnings')
      decreases Unvisited(fs, visited), 2, 1
    {
      var directive := ParseLine(raw);
      if directive.None? {
        assert warnings + [] == warnings;
        return visited, warnings;
      }
      visited', warnings' :=
        ParseDirective(fs, source, KindOf(directive.value.0), directive.value.1, number, base, visited, warnings);
    }

    method ParseDirective(
        fs: FileSystem, source: string, kind: Kind, parts: seq<string>, number: nat, base: Option<string>,
        visited: set<string>, warnings: seq<string>)
      returns (visited': set<string>, warnings': seq<string>)
      modifies this
      ensures Followed(WalkDirective(fs, source, kind, parts, number, base, old(insideMatch), visited),
        visited, warnings, visited', warnings')
      decreases Unvisited(fs, visited), 2, 0
    {
      visited', warnings' := visited, warnings;
      assert warnings + [] == warnings;
      AbsorbOne(Contents());
      if kind == HostKind {
        insideMatch := false;
        AppendCurrentBlock();
        current := current.(aliases := parts);
        current := current.(source := source);
        current := current.(line := number);
      } else if kind == MatchKind {
        AppendCurrentBlock();
        insideMatch := true;
      } else if insideMatch {
        return;
      } else if kind == IncludeKind {
        AppendCurrentBlock();
        if base.Some? {
          var expansion := fs.expand(parts, base.value);
          ghost var included := WalkPaths(fs, expansion.paths, insideMatch, visited);
          AbsorbAppend(old(Contents()), [IncludeLine], included.events);
          assert warnings + (expansion.warnings + included.warnings) ==
            warnings + expansion.warnings + included.warnings;
          visited', warnings' := ParseIncludes(fs, expansion.paths, visited, warnings + expansion.warnings);
        }
      } else if kind == HostNameKind {
        current := current.(hostName := First(parts));
      } else if kind == UserKind {
        current := current.(user := First(parts));
      }
    }

    method ParseIncludes(fs: FileSystem, paths: seq<string>, visited: set<string>, warnings: seq<string>)
      returns (visited': set<string>, warnings': seq<string>)
      modifies this
      ensures Followed(WalkPaths(fs, paths, old(insideMatch), visited), visited, warnings, visited', warnings')
      decreases Unvisited(fs, visited), 1
    {
      visited', warnings' := visited, warnings;
      ghost var start, total := Contents(), WalkPaths(fs, paths, insideMatch, visited);
      ghost var done := Stay(insideMatch, visited);
      for i := 0 to |paths|
        invariant visited <= visited' == done.visited && insideMatch == done.insideMatch &&
          warnings' == warnings + done.warnings
        invariant Contents() == AbsorbAll(start, done.events)
        invariant total == done.Then(WalkPaths(fs, paths[i..], done.insideMatch, done.visited))
      {
        ghost var path := PathAdvances(fs, paths, i, done, total);
        StretchAbsorbed(start, done, path, warnings);
        UnvisitedShrinks(fs, visited, visited');
        done := done.Then(path);
        if paths[i] in fs.files {
          visited', warnings' := ParseFileContents(fs, paths[i], visited', warnings');
        } else {
          warnings' := warnings' + ["could not read included SSH config " + paths[i]];
        }
      }
      ThenStay(done);
    }

    method ParseConfig(
        fs: FileSystem, source: string, lines: seq<string>, base: Option<string>, visited: set<string>,
        warnings: seq<string>)
      returns (visited': set<string>, warnings': seq<string>)
      modifies this
      ensures Followed(WalkLines(fs, source, lines, 0, base, old(insideMatch), visited),
        visited, warnings, visited', warnings')
      decreases Unvisited(fs, visited), 4
    {
      ghost var start := Contents();
      ghost var done;
      visited', warnings', done := ParseLines(fs, source, lines, base, visited, warnings);
      StretchAbsorbed(start, done, Walk([EndOfFile], insideMatch, visited', []), warnings);
      AbsorbOne(Contents());
      AppendCurrentBlock();
    }

    /** The line loop; `done` is the walk over all lines, without the end of the file. */
    method ParseLines(
        fs: FileSystem, source: string, lines: seq<string>, base: Option<string>, visited: set<string>,
        warnings: seq<string>)
      returns (visited': set<string>, warnings': seq<string>, ghost done: Walk)
      modifies this
      ensures Followed(done, visited, warnings, visited', warnings')
      ensures WalkLines(fs, source, lines, 0, base, old(insideMatch), visited) ==
        done.Then(Walk([EndOfFile], insideMatch, visited', []))
      decreases Unvisited(fs, visited), 3
    {
      visited', warnings' := visited, warnings;
      ghost var start, total := Contents(), WalkLines(fs, source, lines, 0, base, insideMatch, visited);
      done := Stay(insideMatch, visited);
      for i := 0 to |lines|
        invariant visited <= visited' == done.visited && insideMatch == done.insideMatch &&
          warnings' == warnings + done.warnings
        invariant Contents() == AbsorbAll(start, done.events)
        invariant total == done.Then(WalkLines(fs, source, lines, i, base, done.insideMatch, done.visited))
      {
        ghost var line := LineAdvances(fs, source, lines, i, base, done, total);
        StretchAbsorbed(start, done, line, warnings);
        UnvisitedShrinks(fs, visited, visited');
        done := done.Then(line);
        visited', warnings' := ParseLineInto(fs, source, lines[i], i + 1, base, visited', warnings');
      }
    }
  }

  lemma LineAdvances(
      fs: FileSystem, source: string, lines: seq<string>, i: nat, base: Option<string>, done: Walk, total: Walk)
    returns (line: Walk)
    requires i < |lines| && total == done.Then(WalkLines(fs, source, lines, i, base, done.insideMatch, done.visited))
    ensures line == WalkLine(fs, source, lines[i], i + 1, base, done.insideMatch, done.visited)
    ensures total == done.Then(line).Then(WalkLines(fs, source, lines, i + 1, base, line.insideMatch, line.visited))
  {
    line := WalkLine(fs, source, lines[i], i + 1, base, done.insideMatch, done.visited);
    ThenIsAssociative(done, line, WalkLines(fs, source, lines, i + 1, base, line.insideMatch, line.visited));
  }

  lemma PathAdvances(fs: FileSystem, paths: seq<string>, i: nat, done: Walk, total: Walk) returns (path: Walk)
    requires i < |paths| && total == done.Then(WalkPaths(fs, paths[i..], done.insideMatch, done.visited))
    ensures path == WalkPath(fs, paths[i], done.insideMatch, done.visited)
    ensures total == done.Then(path).Then(WalkPaths(fs, paths[i + 1..], path.insideMatch, path.visited))
  {
    assert paths[i..][0] == paths[i] && paths[i..][1..] == paths[i + 1..];
    path := WalkPath(fs, paths[i], done.insideMatch, done.visited);
    ThenIsAssociative(done, path, WalkPaths(fs, paths[i + 1..], path.insideMatch, path.visited));
  }

  lemma StretchAbsorbed(start: ImportState, done: Walk, next: Walk, warnings: seq<string>)
    ensures AbsorbAll(start, done.Then(next).events) == AbsorbAll(AbsorbAll(start, done.events), next.events)
    ensures warnings + done.Then(next).warnings == warnings + done.warnings + next.warnings
  {
    AbsorbAppend(start, done.events, next.events);
    assert warnings + (done.warnings + next.warnings) == (warnings + done.warnings) + next.warnings;
  }

  lemma AbsorbOne(st: ImportState)
    ensures forall e :: AbsorbAll(st, [e]) == Absorb(st, e)
  {
    forall e ensures AbsorbAll(st, [e]) == Absorb(st, e) {
      assert [e][1..] == [];
    }
  }

  lemma ThenStay(w: Walk)
    ensures w.Then(Stay(w.insideMatch, w.visited)) == w
  {
    assert w.events + [] == w.events && w.warnings + [] == w.warnings;
  }

  lemma ThenIsAssociative(a: Walk, b: Walk, c: Walk)
    ensures a.Then(b).Then(c) == a.Then(b.Then(c))
  {
    assert (a.events + b.events) + c.events == a.events + (b.events + c.events);
    assert (a.warnings + b.warnings) + c.warnings == a.warnings + (b.warnings + c.warnings);
  }
}
