/** Which warnings an SSH import gives: those of the Include lines it follows, and no others. */
module SshWarnings {
  import opened Wrappers
  import opened SshTokens
  import opened SshImport
  import opened SshImportMeaning
  import opened SshIncludes
  import opened SshReach

  function Unreadable(path: string): string {
    "could not read included SSH config " + path
  }

  /** The followed line `i` gives this warning: its patterns do, or a path they expand to that cannot be read. */
  ghost predicate LineWarns(fs: FileSystem, file: File, i: int, warning: string) {
    && 0 <= i < |file.lines| && IsFollowed(file, i)
    && (warning in fs.expand(ParseLine(file.lines[i]).value.1, file.parent.value).warnings
        || exists q :: q in ExpandedPaths(fs, file, i) && q !in fs.files && warning == Unreadable(q))
  }

  ghost predicate FileWarns(fs: FileSystem, p: string, warning: string) {
    p in fs.files && exists i :: LineWarns(fs, fs.files[p], i, warning)
  }

  /** Some file that can be reached from `p` gives the warning. */
  ghost predicate WarnsBelow(fs: FileSystem, p: string, warning: string) {
    exists q :: ReachesFile(fs, p, q) && FileWarns(fs, q, warning)
  }

  // ----- the warnings that are given

  /** The lines from `i` on have all their warnings in the set. */
  ghost predicate WarnedFrom(fs: FileSystem, file: File, i: int, warnings: seq<string>) {
    forall k, warning :: k >= i && LineWarns(fs, file, k, warning) ==> warning in warnings
  }

  /** So have all the files that are new in `after`. */
  ghost predicate NewIsWarned(fs: FileSystem, before: set<string>, after: set<string>, warnings: seq<string>) {
    forall p :: p in fs.files && fs.files[p].identity in after && fs.files[p].identity !in before ==>
      WarnedFrom(fs, fs.files[p], 0, warnings)
  }

  /** And every warning comes from a file below one of the `starts`. */
  ghost predicate OnlyBelow(fs: FileSystem, starts: set<string>, warnings: seq<string>) {
    forall warning :: warning in warnings ==> exists p :: p in starts && WarnsBelow(fs, p, warning)
  }

  /** The walk of a file gives the right warnings. */
  ghost predicate WarnsRightly(fs: FileSystem, p: string, visited: set<string>) {
    p in fs.files &&
    var w := WalkFile(fs, p, false, visited);
    NewIsWarned(fs, visited, w.visited, w.warnings) && OnlyBelow(fs, {p}, w.warnings)
  }

  ghost predicate RightBelow(fs: FileSystem, n: nat) {
    forall p, v :: p in fs.files && Unvisited(fs, v) < n && EndsQuietly(WalkFile(fs, p, false, v).events, false) ==>
      WarnsRightly(fs, p, v)
  }

  lemma WarnedThen(
      fs: FileSystem, a: set<string>, b: set<string>, c: set<string>, first: seq<string>, second: seq<string>)
    requires NewIsWarned(fs, a, b, first) && NewIsWarned(fs, b, c, second)
    ensures NewIsWarned(fs, a, c, first + second)
  {
    forall p | p in fs.files && fs.files[p].identity in c && fs.files[p].identity !in a
      ensures WarnedFrom(fs, fs.files[p], 0, first + second)
    {
      if fs.files[p].identity in b {
        assert WarnedFrom(fs, fs.files[p], 0, first);
      } else {
        assert WarnedFrom(fs, fs.files[p], 0, second);
      }
    }
  }

  lemma OnlyThen(fs: FileSystem, starts: set<string>, first: seq<string>, second: seq<string>)
    requires OnlyBelow(fs, starts, first) && OnlyBelow(fs, starts, second)
    ensures OnlyBelow(fs, starts, first + second)
  {
  }

  lemma WarnsThrough(fs: FileSystem, p: string, q: string, warning: string)
    requires FileIncludes(fs, p, q) && WarnsBelow(fs, q, warning)
    ensures WarnsBelow(fs, p, warning)
  {
    var r :| ReachesFile(fs, q, r) && FileWarns(fs, r, warning);
    var chain :| Leads(fs, chain, q, r);
    ChainThrough(fs, p, q, chain);
    assert Leads(fs, [p] + chain, p, r);
  }

  lemma OnlyFromIncluder(fs: FileSystem, p: string, all: set<string>, warnings: seq<string>)
    requires OnlyBelow(fs, all, warnings) && forall q :: q in all ==> FileIncludes(fs, p, q)
    ensures OnlyBelow(fs, {p}, warnings)
  {
    forall warning | warning in warnings ensures exists s :: s in {p} && WarnsBelow(fs, s, warning) {
      var q :| q in all && WarnsBelow(fs, q, warning);
      WarnsThrough(fs, p, q, warning);
      assert p in {p};
    }
  }

  lemma OwnWarning(fs: FileSystem, p: string, i: int, warning: string)
    requires p in fs.files && LineWarns(fs, fs.files[p], i, warning)
    ensures WarnsBelow(fs, p, warning)
  {
    ReachesItself(fs, p);
    assert FileWarns(fs, p, warning);
  }

  // ----- along the walk

  /** Every warning of the paths is that of one that cannot be read, or comes from below one that can. */
  ghost predicate PathsWarn(fs: FileSystem, paths: seq<string>, all: set<string>, warnings: seq<string>) {
    && (forall q :: q in paths && q !in fs.files ==> Unreadable(q) in warnings)
    && forall warning :: warning in warnings ==>
         (exists q :: q in paths && q !in fs.files && warning == Unreadable(q))
         || exists q :: q in all && WarnsBelow(fs, q, warning)
  }

  lemma {:induction false} PathWarns(fs: FileSystem, q: string, visited: set<string>, n: nat, all: set<string>)
    requires RightBelow(fs, n) && Unvisited(fs, visited) < n && (q in fs.files ==> q in all)
    requires EndsQuietly(WalkPath(fs, q, false, visited).events, false)
    ensures var w := WalkPath(fs, q, false, visited);
      NewIsWarned(fs, visited, w.visited, w.warnings) && PathsWarn(fs, [q], all, w.warnings)
  {
    if q in fs.files {
      assert WarnsRightly(fs, q, visited);
    }
  }

  lemma PathsWarnThen(
      fs: FileSystem, paths: seq<string>, all: set<string>, first: seq<string>, second: seq<string>)
    requires paths != [] && PathsWarn(fs, [paths[0]], all, first) && PathsWarn(fs, paths[1..], all, second)
    ensures PathsWarn(fs, paths, all, first + second)
  {
    var warnings := first + second;
    assert paths == [paths[0]] + paths[1..];
    forall q | q in paths && q !in fs.files ensures Unreadable(q) in warnings {
      assert q in [paths[0]] || q in paths[1..];
    }
    forall warning | warning in warnings
      ensures (exists q :: q in paths && q !in fs.files && warning == Unreadable(q))
        || exists q :: q in all && WarnsBelow(fs, q, warning)
    {
      if warning in first {
        if q :| q in [paths[0]] && q !in fs.files && warning == Unreadable(q) {
          assert q in paths;
        }
      } else if q :| q in paths[1..] && q !in fs.files && warning == Unreadable(q) {
        assert q in paths;
      }
    }
  }

  lemma {:induction false} AllPathsWarn(
      fs: FileSystem, paths: seq<string>, visited: set<string>, n: nat, all: set<string>)
    requires ExploredBelow(fs, n) && RightBelow(fs, n) && Unvisited(fs, visited) < n
    requires forall q :: q in paths && q in fs.files ==> q in all
    requires EndsQuietly(WalkPaths(fs, paths, false, visited).events, false)
    ensures var w := WalkPaths(fs, paths, false, visited);
      NewIsWarned(fs, visited, w.visited, w.warnings) && PathsWarn(fs, paths, all, w.warnings)
    decreases |paths|
  {
    if paths != [] {
      var q, rest := paths[0], paths[1..];
      var first := WalkPath(fs, q, false, visited);
      var others := WalkPaths(fs, rest, first.insideMatch, first.visited);
      PathFlag(fs, q, visited);
      QuietAppend(first.events, others.events, false);
      PathExplored(fs, q, visited, n, all);
      PathWarns(fs, q, visited, n, all);
      UnvisitedShrinks(fs, visited, first.visited);
      AllPathsWarn(fs, rest, first.visited, n, all);
      WarnedThen(fs, visited, first.visited, others.visited, first.warnings, others.warnings);
      PathsWarnThen(fs, paths, all, first.warnings, others.warnings);
    }
  }

  function Readable(fs: FileSystem, paths: seq<string>): set<string> {
    set q | q in paths && q in fs.files
  }

  /** The warnings of line `i` are all there, and all there are. */
  ghost predicate LineIsWarned(fs: FileSystem, p: string, i: nat, warnings: seq<string>)
    requires p in fs.files
  {
    && (forall warning :: LineWarns(fs, fs.files[p], i, warning) ==> warning in warnings)
    && OnlyBelow(fs, {p}, warnings)
  }

  lemma {:induction false} OtherDirectiveIsSilent(
      fs: FileSystem, source: string, kind: Kind, parts: seq<string>, number: nat, base: Option<string>, flag: bool,
      visited: set<string>)
    requires kind != IncludeKind || base.None? || flag
    ensures WalkDirective(fs, source, kind, parts, number, base, flag, visited).warnings == []
  {
  }

  lemma {:induction false} OtherIsSilent(
      fs: FileSystem, source: string, raw: string, number: nat, base: Option<string>, flag: bool, visited: set<string>)
    requires !IsInclude(ParseLine(raw)) || base.None? || flag
    ensures WalkLine(fs, source, raw, number, base, flag, visited).warnings == []
  {
    var directive := ParseLine(raw);
    if directive.Some? {
      OtherDirectiveIsSilent(fs, source, KindOf(directive.value.0), directive.value.1, number, base, flag, visited);
    }
  }

  lemma {:induction false} OtherLineIsSilent(fs: FileSystem, p: string, i: nat, visited: set<string>)
    requires p in fs.files && i < |fs.files[p].lines| && !IsFollowed(fs.files[p], i)
    ensures OwnLine(fs, p, i, visited).warnings == []
  {
    var file := fs.files[p];
    OtherIsSilent(fs, p, file.lines[i], i + 1, file.parent, FlagBefore(file.lines, i), visited);
  }

  lemma {:induction false} IncludeWarnings(
      fs: FileSystem, source: string, raw: string, number: nat, base: Option<string>, visited: set<string>)
    requires IsInclude(ParseLine(raw)) && base.Some?
    ensures var expansion := fs.expand(ParseLine(raw).value.1, base.value);
      WalkLine(fs, source, raw, number, base, false, visited).warnings
        == expansion.warnings + WalkPaths(fs, expansion.paths, false, visited).warnings
  {
  }

  lemma {:induction false} FollowedWarnings(fs: FileSystem, p: string, i: nat, visited: set<string>)
    requires p in fs.files && i < |fs.files[p].lines| && IsFollowed(fs.files[p], i)
    ensures var file := fs.files[p];
      var expansion := fs.expand(ParseLine(file.lines[i]).value.1, file.parent.value);
      OwnLine(fs, p, i, visited).warnings
        == expansion.warnings + WalkPaths(fs, ExpandedPaths(fs, file, i), false, visited).warnings
  {
    var file := fs.files[p];
    IncludeWarnings(fs, p, file.lines[i], i + 1, file.parent, visited);
  }

  lemma {:induction false} FollowedIsWarned(
      fs: FileSystem, p: string, i: nat, expanded: seq<string>, below: seq<string>)
    requires p in fs.files && i < |fs.files[p].lines| && IsFollowed(fs.files[p], i)
    requires expanded == fs.expand(ParseLine(fs.files[p].lines[i]).value.1, fs.files[p].parent.value).warnings
    requires var paths := ExpandedPaths(fs, fs.files[p], i);
      PathsWarn(fs, paths, Readable(fs, paths), below)
    ensures LineIsWarned(fs, p, i, expanded + below)
  {
    var file := fs.files[p];
    var paths := ExpandedPaths(fs, file, i);
    forall warning | warning in expanded + below ensures exists s :: s in {p} && WarnsBelow(fs, s, warning) {
      if warning in expanded || exists q :: q in paths && q !in fs.files && warning == Unreadable(q) {
        assert LineWarns(fs, file, i, warning);
        OwnWarning(fs, p, i, warning);
      } else {
        var q :| q in paths && q in fs.files && WarnsBelow(fs, q, warning);
        assert LineIncludes(fs, file, i, q);
        WarnsThrough(fs, p, q, warning);
      }
      assert p in {p};
    }
  }

  lemma {:induction false} LineWarnsRightly(fs: FileSystem, p: string, i: nat, visited: set<string>, n: nat)
    requires ExploredBelow(fs, n) && RightBelow(fs, n) && Unvisited(fs, visited) < n
    requires p in fs.files && i < |fs.files[p].lines|
    requires EndsQuietly(OwnLine(fs, p, i, visited).events, FlagBefore(fs.files[p].lines, i))
    ensures var w := OwnLine(fs, p, i, visited);
      NewIsWarned(fs, visited, w.visited, w.warnings) && LineIsWarned(fs, p, i, w.warnings)
  {
    var file := fs.files[p];
    if IsFollowed(file, i) {
      var paths := ExpandedPaths(fs, file, i);
      var expansion := fs.expand(ParseLine(file.lines[i]).value.1, file.parent.value);
      var below := WalkPaths(fs, paths, false, visited);
      FollowedLine(fs, p, i, visited);
      FollowedWarnings(fs, p, i, visited);
      SoundOne(fs, IncludeLine, false, visited, []);
      QuietAppend([IncludeLine], below.events, false);
      AllPathsWarn(fs, paths, visited, n, Readable(fs, paths));
      FollowedIsWarned(fs, p, i, expansion.warnings, below.warnings);
      assert NewIsWarned(fs, visited, visited, expansion.warnings);
      WarnedThen(fs, visited, visited, below.visited, expansion.warnings, below.warnings);
    } else {
      OtherLine(fs, p, i, visited);
      OtherLineIsSilent(fs, p, i, visited);
    }
  }

  lemma WarnedFromLine(fs: FileSystem, p: string, i: nat, first: seq<string>, second: seq<string>)
    requires p in fs.files && LineIsWarned(fs, p, i, first) && WarnedFrom(fs, fs.files[p], i + 1, second)
    ensures WarnedFrom(fs, fs.files[p], i, first + second)
  {
  }

  /** The lines of `p` from `i` on give the right warnings. */
  ghost predicate LinesAreWarned(
      fs: FileSystem, p: string, i: nat, before: set<string>, after: set<string>, warnings: seq<string>)
    requires p in fs.files
  {
    && NewIsWarned(fs, before, after, warnings) && WarnedFrom(fs, fs.files[p], i, warnings)
    && OnlyBelow(fs, {p}, warnings)
  }

  lemma LineThenLines(
      fs: FileSystem, p: string, i: nat, before: set<string>, line: set<string>, after: set<string>,
      first: seq<string>, second: seq<string>)
    requires p in fs.files && NewIsWarned(fs, before, line, first) && LineIsWarned(fs, p, i, first)
    requires LinesAreWarned(fs, p, i + 1, line, after, second)
    ensures LinesAreWarned(fs, p, i, before, after, first + second)
  {
    WarnedThen(fs, before, line, after, first, second);
    WarnedFromLine(fs, p, i, first, second);
    OnlyThen(fs, {p}, first, second);
  }

  lemma {:induction false} FirstLineWarns(fs: FileSystem, p: string, i: nat, visited: set<string>, n: nat)
    requires ExploredBelow(fs, n) && RightBelow(fs, n) && Unvisited(fs, visited) < n
    requires p in fs.files && i < |fs.files[p].lines| && QuietFrom(fs, p, i, visited)
    ensures var w := OwnLine(fs, p, i, visited);
      NewIsWarned(fs, visited, w.visited, w.warnings) && LineIsWarned(fs, p, i, w.warnings)
  {
    var file := fs.files[p];
    QuietParts(fs, p, file.lines, i, file.parent, FlagBefore(file.lines, i), visited);
    LineWarnsRightly(fs, p, i, visited, n);
  }

  lemma {:induction false} LinesWarnRightly(fs: FileSystem, p: string, i: nat, visited: set<string>, n: nat)
    requires ExploredBelow(fs, n) && RightBelow(fs, n) && Unvisited(fs, visited) < n
    requires p in fs.files && i <= |fs.files[p].lines| && QuietFrom(fs, p, i, visited)
    ensures LinesAreWarned(fs, p, i, visited, OwnLines(fs, p, i, visited).visited, OwnLines(fs, p, i, visited).warnings)
    decreases |fs.files[p].lines| - i
  {
    if i < |fs.files[p].lines| {
      var line := OwnLine(fs, p, i, visited);
      FirstLineExplored(fs, p, i, visited, n);
      FirstLineWarns(fs, p, i, visited, n);
      GoesOn(fs, p, i, visited);
      UnvisitedShrinks(fs, visited, line.visited);
      LinesWarnRightly(fs, p, i + 1, line.visited, n);
      var rest := OwnLines(fs, p, i + 1, line.visited);
      LineThenLines(fs, p, i, visited, line.visited, rest.visited, line.warnings, rest.warnings);
    }
  }

  lemma FileIsNewToo(fs: FileSystem, p: string, before: set<string>, after: set<string>, warnings: seq<string>)
    requires IdentitiesNameFiles(fs) && p in fs.files
    requires LinesAreWarned(fs, p, 0, before + {fs.files[p].identity}, after, warnings)
    ensures NewIsWarned(fs, before, after, warnings)
  {
    forall f | f in fs.files && fs.files[f].identity in after && fs.files[f].identity !in before
      ensures WarnedFrom(fs, fs.files[f], 0, warnings)
    {
      if fs.files[f].identity == fs.files[p].identity {
        assert fs.files[f] == fs.files[p];
      }
    }
  }

  lemma {:induction false} EnteredFileWarns(fs: FileSystem, p: string, visited: set<string>, n: nat)
    requires IdentitiesNameFiles(fs) && ExploredBelow(fs, n) && RightBelow(fs, n) && Unvisited(fs, visited) <= n
    requires p in fs.files && fs.files[p].identity !in visited
    requires var events := WalkFile(fs, p, false, visited).events; events != [] && EndsQuietly(Init(events), false)
    ensures WarnsRightly(fs, p, visited)
  {
    var file, w := fs.files[p], WalkFile(fs, p, false, visited);
    var more := visited + {file.identity};
    assert file.identity in Identities(fs);
    UnvisitedShrinks(fs, visited, more);
    WalkEndsFile(fs, p, file.lines, 0, file.parent, false, more);
    EnterIsQuiet(file.identity, OwnLines(fs, p, 0, more).events);
    LinesWarnRightly(fs, p, 0, more, n);
    FileIsNewToo(fs, p, visited, OwnLines(fs, p, 0, more).visited, OwnLines(fs, p, 0, more).warnings);
  }

  lemma {:induction false} RightUpTo(fs: FileSystem, n: nat)
    requires IdentitiesNameFiles(fs)
    ensures RightBelow(fs, n)
  {
    if n > 0 {
      RightUpTo(fs, n - 1);
      ExploredUpTo(fs, n - 1);
      forall p, v | p in fs.files && Unvisited(fs, v) < n && EndsQuietly(WalkFile(fs, p, false, v).events, false)
        ensures WarnsRightly(fs, p, v)
      {
        QuietFileWarns(fs, p, v, n - 1);
      }
    }
  }

  lemma {:induction false} QuietFileWarns(fs: FileSystem, p: string, visited: set<string>, n: nat)
    requires IdentitiesNameFiles(fs) && ExploredBelow(fs, n) && RightBelow(fs, n) && Unvisited(fs, visited) <= n
    requires p in fs.files && EndsQuietly(WalkFile(fs, p, false, visited).events, false)
    ensures WarnsRightly(fs, p, visited)
  {
    var file, events := fs.files[p], WalkFile(fs, p, false, visited).events;
    if file.identity !in visited {
      var more := visited + {file.identity};
      UnvisitedShrinks(fs, visited, more);
      WalkEndsFile(fs, p, file.lines, 0, file.parent, false, more);
      EnterIsQuiet(file.identity, WalkLines(fs, p, file.lines, 0, file.parent, false, more).events);
      WalkFileIsSound(fs, p, false, visited);
      QuietWithEnd(events, false);
      EnteredFileWarns(fs, p, visited, n);
    }
  }

  /**
   * Where nothing carries over, the import warns exactly of what the Include lines outside Match blocks of the files it
   * reaches warn of: patterns that do not expand, and files that cannot be read.
   */
  lemma {:induction false} WarningsMeaning(fs: FileSystem, path: string, warning: string)
    requires path in fs.files && IdentitiesNameFiles(fs) && OthersEndOutside(fs, path)
    ensures warning in WalkFile(fs, path, false, {}).warnings <==> WarnsBelow(fs, path, warning)
  {
    var n, w := Unvisited(fs, {}), WalkFile(fs, path, false, {});
    NothingCarriesOverWhenOthersEndOutside(fs, path);
    ExploredUpTo(fs, n);
    RightUpTo(fs, n);
    EnteredFileWarns(fs, path, {}, n);
    ImportExplored(fs, path);
    if WarnsBelow(fs, path, warning) {
      var q :| ReachesFile(fs, path, q) && FileWarns(fs, q, warning);
      ReachedIsVisited(fs, path, q, w.visited);
      assert WarnedFrom(fs, fs.files[q], 0, w.warnings);
      var i :| LineWarns(fs, fs.files[q], i, warning);
    }
  }
}
