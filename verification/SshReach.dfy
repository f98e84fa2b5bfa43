/** Which files an SSH import reads: exactly those that Include lines lead to, unless a Match block gets in between. */
module SshReach {
  import opened Wrappers
  import opened SshTokens
  import opened SshLines
  import opened SshImport
  import opened SshImportMeaning
  import opened SshIncludes

  // ----- who includes whom

  /** The flag before line `i`, by the file's own headers. */
  function FlagBefore(lines: seq<string>, i: nat): bool
    requires i <= |lines|
  {
    if i == 0 then false else FlagAfterLine(lines[i - 1], FlagBefore(lines, i - 1))
  }

  lemma {:induction false} FlagAtEnd(lines: seq<string>, i: nat)
    requires i <= |lines|
    ensures EndsInMatch(lines, i, FlagBefore(lines, i)) == EndsInMatch(lines, 0, false)
  {
    if i > 0 {
      FlagAtEnd(lines, i - 1);
    }
  }

  /** Whether line `i` of the file is an Include outside the file's Match blocks. */
  predicate IsFollowed(file: File, i: nat)
    requires i < |file.lines|
  {
    var directive := ParseLine(file.lines[i]);
    directive.Some? && KindOf(directive.value.0) == IncludeKind && !FlagBefore(file.lines, i) && file.parent.Some?
  }

  function ExpandedPaths(fs: FileSystem, file: File, i: nat): seq<string>
    requires i < |file.lines| && IsFollowed(file, i)
  {
    fs.expand(ParseLine(file.lines[i]).value.1, file.parent.value).paths
  }

  /** Line `i` is followed, and its patterns expand to the readable file `q`. */
  ghost predicate LineIncludes(fs: FileSystem, file: File, i: int, q: string) {
    0 <= i < |file.lines| && IsFollowed(file, i) && q in fs.files && q in ExpandedPaths(fs, file, i)
  }

  ghost predicate FileIncludes(fs: FileSystem, p: string, q: string) {
    p in fs.files && exists i :: LineIncludes(fs, fs.files[p], i, q)
  }

  /** A chain of files from `p`, each including the next. */
  ghost predicate IsChain(fs: FileSystem, chain: seq<string>, p: string) {
    && chain != [] && chain[0] == p
    && (forall k :: 0 <= k < |chain| ==> chain[k] in fs.files)
    && (forall k :: 0 <= k < |chain| - 1 ==> FileIncludes(fs, chain[k], chain[k + 1]))
  }

  ghost predicate Leads(fs: FileSystem, chain: seq<string>, p: string, q: string) {
    IsChain(fs, chain, p) && chain[|chain| - 1] == q
  }

  ghost predicate ReachesFile(fs: FileSystem, p: string, q: string) {
    exists chain :: Leads(fs, chain, p, q)
  }

  ghost predicate ReachesAs(fs: FileSystem, p: string, q: string, id: string) {
    q in fs.files && fs.files[q].identity == id && ReachesFile(fs, p, q)
  }

  /** Some file of identity `id` can be reached from `p`. */
  ghost predicate Reaches(fs: FileSystem, p: string, id: string) {
    exists q :: ReachesAs(fs, p, q, id)
  }

  lemma ReachesItself(fs: FileSystem, p: string)
    requires p in fs.files
    ensures ReachesFile(fs, p, p) && Reaches(fs, p, fs.files[p].identity)
  {
    assert Leads(fs, [p], p, p);
    assert ReachesAs(fs, p, p, fs.files[p].identity);
  }

  lemma ChainThrough(fs: FileSystem, p: string, q: string, chain: seq<string>)
    requires FileIncludes(fs, p, q) && IsChain(fs, chain, q)
    ensures IsChain(fs, [p] + chain, p)
  {
    var longer := [p] + chain;
    forall k | 0 <= k < |longer| - 1 ensures FileIncludes(fs, longer[k], longer[k + 1]) {
      if k > 0 {
        assert FileIncludes(fs, chain[k - 1], chain[k]);
      }
    }
  }

  lemma ReachesThrough(fs: FileSystem, p: string, q: string, id: string)
    requires FileIncludes(fs, p, q) && Reaches(fs, q, id)
    ensures Reaches(fs, p, id)
  {
    var r :| ReachesAs(fs, q, r, id);
    var chain :| Leads(fs, chain, q, r);
    ChainThrough(fs, p, q, chain);
    assert Leads(fs, [p] + chain, p, r);
    assert ReachesAs(fs, p, r, id);
  }

  lemma ReachesOn(fs: FileSystem, p: string, q: string, r: string)
    requires ReachesFile(fs, p, q) && FileIncludes(fs, q, r)
    ensures ReachesFile(fs, p, r)
  {
    var chain :| Leads(fs, chain, p, q);
    var longer := chain + [r];
    forall k | 0 <= k < |longer| - 1 ensures FileIncludes(fs, longer[k], longer[k + 1]) {
      if k < |chain| - 1 {
        assert FileIncludes(fs, chain[k], chain[k + 1]);
      }
    }
    assert Leads(fs, longer, p, r);
  }

  /** Paths of one identity name one file, and stand in one directory. */
  ghost predicate IdentitiesNameFiles(fs: FileSystem) {
    forall p, q :: p in fs.files && q in fs.files && fs.files[p].identity == fs.files[q].identity ==>
      fs.files[p] == fs.files[q]
  }

  // ----- no Match block carries over where no reachable file ends in one

  /** No file that the start file leads to ends in a Match block of its own; the start file itself may. */
  ghost predicate OthersEndOutside(fs: FileSystem, path: string)
    requires path in fs.files
  {
    forall q :: ReachesFile(fs, path, q) && q in fs.files && fs.files[q].identity != fs.files[path].identity ==>
      !EndsInMatch(fs.files[q].lines, 0, false)
  }

  /** No included file's end is met inside a Match block: the last end of file is the start file's. */
  ghost predicate NothingCarriesOver(fs: FileSystem, path: string)
    requires path in fs.files
  {
    var events := WalkFile(fs, path, false, {}).events;
    events != [] && EndsQuietly(Init(events), false)
  }

  ghost function Reached(fs: FileSystem, path: string): set<string> {
    set q | q in fs.files && ReachesFile(fs, path, q)
  }

  lemma {:induction false} ReachedLinesStay(fs: FileSystem, path: string, p: string, i: nat)
    requires p in fs.files && ReachesFile(fs, path, p) && i <= |fs.files[p].lines|
    ensures LinesStay(fs, fs.files[p].lines, i, fs.files[p].parent, FlagBefore(fs.files[p].lines, i), Reached(fs, path))
    decreases |fs.files[p].lines| - i
  {
    var file := fs.files[p];
    if i < |file.lines| {
      ReachedLinesStay(fs, path, p, i + 1);
      if IsFollowed(file, i) {
        forall q | q in ExpandedPaths(fs, file, i) && q in fs.files ensures q in Reached(fs, path) {
          assert LineIncludes(fs, file, i, q);
          ReachesOn(fs, path, p, q);
        }
        assert PathsStay(fs, ExpandedPaths(fs, file, i), Reached(fs, path));
      }
    }
  }

  lemma {:induction false} NothingCarriesOverWhenOthersEndOutside(fs: FileSystem, path: string)
    requires path in fs.files && OthersEndOutside(fs, path)
    ensures NothingCarriesOver(fs, path)
  {
    var scope, entered, n := Reached(fs, path), {fs.files[path].identity}, Unvisited(fs, {});
    forall p | p in scope ensures LinesStay(fs, fs.files[p].lines, 0, fs.files[p].parent, false, scope) {
      ReachedLinesStay(fs, path, p, 0);
    }
    ReachesItself(fs, path);
    QuietUpTo(fs, scope, entered, n);
    QuietFile(fs, path, {}, scope, entered, n);
  }

  // ----- what is explored where nothing carries over

  /** Whatever files of this identity include is among the visited. */
  ghost predicate Closed(fs: FileSystem, id: string, visited: set<string>) {
    forall p, q :: p in fs.files && fs.files[p].identity == id && FileIncludes(fs, p, q) ==>
      fs.files[q].identity in visited
  }

  ghost predicate EndsOutside(fs: FileSystem, id: string) {
    forall p :: p in fs.files && fs.files[p].identity == id ==> !EndsInMatch(fs.files[p].lines, 0, false)
  }

  ghost predicate Explored(fs: FileSystem, starts: set<string>, id: string, after: set<string>) {
    (exists p :: p in starts && Reaches(fs, p, id)) && Closed(fs, id, after) && EndsOutside(fs, id)
  }

  /** All that is new in `after` can be reached from one of the `starts`, is closed, and ends outside Match blocks. */
  ghost predicate NewIsExplored(fs: FileSystem, starts: set<string>, before: set<string>, after: set<string>) {
    before <= after && forall id :: id in after && id !in before ==> Explored(fs, starts, id, after)
  }

  ghost predicate FileExplored(fs: FileSystem, p: string, before: set<string>, after: set<string>)
    requires p in fs.files
  {
    fs.files[p].identity in after && NewIsExplored(fs, {p}, before, after)
  }

  ghost predicate ExploredBelow(fs: FileSystem, n: nat) {
    forall p, v :: p in fs.files && Unvisited(fs, v) < n && EndsQuietly(WalkFile(fs, p, false, v).events, false) ==>
      FileExplored(fs, p, v, WalkFile(fs, p, false, v).visited)
  }

  lemma ExploredThen(fs: FileSystem, starts: set<string>, a: set<string>, b: set<string>, c: set<string>)
    requires NewIsExplored(fs, starts, a, b) && NewIsExplored(fs, starts, b, c)
    ensures NewIsExplored(fs, starts, a, c)
  {
    forall id | id in c && id !in a ensures Explored(fs, starts, id, c) {
      if id in b {
        assert Explored(fs, starts, id, b);
      }
    }
  }

  lemma ExploredFromMore(fs: FileSystem, p: string, all: set<string>, before: set<string>, after: set<string>)
    requires NewIsExplored(fs, {p}, before, after) && p in all
    ensures NewIsExplored(fs, all, before, after)
  {
    forall id | id in after && id !in before ensures Explored(fs, all, id, after) {
      assert Explored(fs, {p}, id, after);
    }
  }

  lemma FromTheIncluder(fs: FileSystem, p: string, all: set<string>, before: set<string>, after: set<string>)
    requires NewIsExplored(fs, all, before, after) && forall q :: q in all ==> FileIncludes(fs, p, q)
    ensures NewIsExplored(fs, {p}, before, after)
  {
    forall id | id in after && id !in before ensures Explored(fs, {p}, id, after) {
      assert Explored(fs, all, id, after);
      var q :| q in all && Reaches(fs, q, id);
      ReachesThrough(fs, p, q, id);
      assert p in {p} && Reaches(fs, p, id);
    }
  }

  /** A quiet walk of a file ends outside Match blocks. */
  lemma {:induction false} QuietFileEndsOutside(fs: FileSystem, p: string, visited: set<string>)
    requires p in fs.files && EndsQuietly(WalkFile(fs, p, false, visited).events, false)
    ensures !WalkFile(fs, p, false, visited).insideMatch
  {
    var file, w := fs.files[p], WalkFile(fs, p, false, visited);
    if file.identity !in visited {
      var more := visited + {file.identity};
      UnvisitedShrinks(fs, visited, more);
      WalkEndsFile(fs, p, file.lines, 0, file.parent, false, more);
      EnterIsQuiet(file.identity, WalkLines(fs, p, file.lines, 0, file.parent, false, more).events);
      WalkFileIsSound(fs, p, false, visited);
      QuietWithEnd(w.events, false);
    }
  }

  lemma {:induction false} PathExplored(fs: FileSystem, q: string, visited: set<string>, n: nat, all: set<string>)
    requires ExploredBelow(fs, n) && Unvisited(fs, visited) < n && (q in fs.files ==> q in all)
    requires EndsQuietly(WalkPath(fs, q, false, visited).events, false)
    ensures var first := WalkPath(fs, q, false, visited);
      && NewIsExplored(fs, all, visited, first.visited) && !first.insideMatch
      && (q in fs.files ==> fs.files[q].identity in first.visited)
  {
    if q in fs.files {
      QuietFileEndsOutside(fs, q, visited);
      assert FileExplored(fs, q, visited, WalkFile(fs, q, false, visited).visited);
      ExploredFromMore(fs, q, all, visited, WalkFile(fs, q, false, visited).visited);
    }
  }

  lemma {:induction false} PathsExplored(
      fs: FileSystem, paths: seq<string>, visited: set<string>, n: nat, all: set<string>)
    requires ExploredBelow(fs, n) && Unvisited(fs, visited) < n
    requires forall q :: q in paths && q in fs.files ==> q in all
    requires EndsQuietly(WalkPaths(fs, paths, false, visited).events, false)
    ensures var w := WalkPaths(fs, paths, false, visited);
      && NewIsExplored(fs, all, visited, w.visited) && !w.insideMatch
      && forall q :: q in paths && q in fs.files ==> fs.files[q].identity in w.visited
    decreases |paths|
  {
    if paths != [] {
      var q, rest := paths[0], paths[1..];
      var first := WalkPath(fs, q, false, visited);
      var others := WalkPaths(fs, rest, first.insideMatch, first.visited);
      PathFlag(fs, q, visited);
      QuietAppend(first.events, others.events, false);
      PathExplored(fs, q, visited, n, all);
      UnvisitedShrinks(fs, visited, first.visited);
      PathsExplored(fs, rest, first.visited, n, all);
      ExploredThen(fs, all, visited, first.visited, others.visited);
      assert forall p :: p in paths ==> p == q || p in rest;
    }
  }

  /** The walk of line `i`, with the flag of the file's own headers. */
  function OwnLine(fs: FileSystem, p: string, i: nat, visited: set<string>): Walk
    requires p in fs.files && i < |fs.files[p].lines|
  {
    var file := fs.files[p];
    WalkLine(fs, p, file.lines[i], i + 1, file.parent, FlagBefore(file.lines, i), visited)
  }

  function OwnLines(fs: FileSystem, p: string, i: nat, visited: set<string>): Walk
    requires p in fs.files && i <= |fs.files[p].lines|
  {
    var file := fs.files[p];
    WalkLines(fs, p, file.lines, i, file.parent, FlagBefore(file.lines, i), visited)
  }

  lemma NextFlag(lines: seq<string>, i: nat)
    requires i < |lines|
    ensures FlagBefore(lines, i + 1) == FlagAfterLine(lines[i], FlagBefore(lines, i))
  {
  }

  predicate IsInclude(directive: Option<(string, seq<string>)>) {
    directive.Some? && KindOf(directive.value.0) == IncludeKind
  }

  lemma {:induction false} IncludeWalk(
      fs: FileSystem, source: string, raw: string, number: nat, base: Option<string>, visited: set<string>)
    requires IsInclude(ParseLine(raw)) && base.Some?
    ensures var w := WalkLine(fs, source, raw, number, base, false, visited);
      var paths := WalkPaths(fs, fs.expand(ParseLine(raw).value.1, base.value).paths, false, visited);
      w.visited == paths.visited && w.insideMatch == paths.insideMatch && w.events == [IncludeLine] + paths.events
    ensures FlagAfterLine(raw, false) == false
  {
  }

  lemma {:induction false} OtherDirective(
      fs: FileSystem, source: string, kind: Kind, parts: seq<string>, number: nat, base: Option<string>, flag: bool,
      visited: set<string>)
    requires kind != IncludeKind || base.None? || flag
    ensures var w := WalkDirective(fs, source, kind, parts, number, base, flag, visited);
      w.visited == visited && w.insideMatch == FlagAfterDirective(kind, flag)
  {
  }

  lemma {:induction false} OtherWalk(
      fs: FileSystem, source: string, raw: string, number: nat, base: Option<string>, flag: bool, visited: set<string>)
    requires !IsInclude(ParseLine(raw)) || base.None? || flag
    ensures var w := WalkLine(fs, source, raw, number, base, flag, visited);
      w.visited == visited && w.insideMatch == FlagAfterLine(raw, flag)
  {
    var directive := ParseLine(raw);
    if directive.Some? {
      OtherDirective(fs, source, KindOf(directive.value.0), directive.value.1, number, base, flag, visited);
    }
  }

  lemma {:induction false} FollowedLine(fs: FileSystem, p: string, i: nat, visited: set<string>)
    requires p in fs.files && i < |fs.files[p].lines| && IsFollowed(fs.files[p], i)
    ensures var w := OwnLine(fs, p, i, visited);
      var paths := WalkPaths(fs, ExpandedPaths(fs, fs.files[p], i), false, visited);
      w.visited == paths.visited && w.insideMatch == paths.insideMatch && w.events == [IncludeLine] + paths.events
    ensures FlagBefore(fs.files[p].lines, i + 1) == false
  {
    var file := fs.files[p];
    NextFlag(file.lines, i);
    IncludeWalk(fs, p, file.lines[i], i + 1, file.parent, visited);
  }

  lemma {:induction false} OtherLine(fs: FileSystem, p: string, i: nat, visited: set<string>)
    requires p in fs.files && i < |fs.files[p].lines| && !IsFollowed(fs.files[p], i)
    ensures OwnLine(fs, p, i, visited).visited == visited
    ensures OwnLine(fs, p, i, visited).insideMatch == FlagBefore(fs.files[p].lines, i + 1)
  {
    var file := fs.files[p];
    NextFlag(file.lines, i);
    OtherWalk(fs, p, file.lines[i], i + 1, file.parent, FlagBefore(file.lines, i), visited);
  }

  lemma {:induction false} IncludeExplored(fs: FileSystem, p: string, i: nat, visited: set<string>, n: nat)
    requires ExploredBelow(fs, n) && Unvisited(fs, visited) < n
    requires p in fs.files && i < |fs.files[p].lines| && IsFollowed(fs.files[p], i)
    requires EndsQuietly(WalkPaths(fs, ExpandedPaths(fs, fs.files[p], i), false, visited).events, false)
    ensures var w := WalkPaths(fs, ExpandedPaths(fs, fs.files[p], i), false, visited);
      && NewIsExplored(fs, {p}, visited, w.visited) && !w.insideMatch
      && forall q :: LineIncludes(fs, fs.files[p], i, q) ==> fs.files[q].identity in w.visited
  {
    var paths := ExpandedPaths(fs, fs.files[p], i);
    var all := set q | q in paths && q in fs.files;
    PathsExplored(fs, paths, visited, n, all);
    forall q | q in all ensures FileIncludes(fs, p, q) {
      assert LineIncludes(fs, fs.files[p], i, q);
    }
    FromTheIncluder(fs, p, all, visited, WalkPaths(fs, paths, false, visited).visited);
  }

  lemma {:induction false} LineExplored(fs: FileSystem, p: string, i: nat, visited: set<string>, n: nat)
    requires ExploredBelow(fs, n) && Unvisited(fs, visited) < n && p in fs.files && i < |fs.files[p].lines|
    requires EndsQuietly(OwnLine(fs, p, i, visited).events, FlagBefore(fs.files[p].lines, i))
    ensures var w := OwnLine(fs, p, i, visited);
      && NewIsExplored(fs, {p}, visited, w.visited) && w.insideMatch == FlagBefore(fs.files[p].lines, i + 1)
      && forall q :: LineIncludes(fs, fs.files[p], i, q) ==> fs.files[q].identity in w.visited
  {
    if IsFollowed(fs.files[p], i) {
      FollowedLine(fs, p, i, visited);
      SoundOne(fs, IncludeLine, false, visited, []);
      QuietAppend([IncludeLine], WalkPaths(fs, ExpandedPaths(fs, fs.files[p], i), false, visited).events, false);
      IncludeExplored(fs, p, i, visited, n);
    } else {
      OtherLine(fs, p, i, visited);
    }
  }

  /** Whatever the lines from `i` on include is among the visited. */
  ghost predicate IncludedFrom(fs: FileSystem, file: File, i: int, visited: set<string>) {
    forall k, q :: k >= i && LineIncludes(fs, file, k, q) ==> fs.files[q].identity in visited
  }

  lemma IncludedFromLine(fs: FileSystem, file: File, i: int, visited: set<string>, after: set<string>)
    requires visited <= after && IncludedFrom(fs, file, i + 1, after)
    requires forall q :: LineIncludes(fs, file, i, q) ==> fs.files[q].identity in visited
    ensures IncludedFrom(fs, file, i, after)
  {
  }

  /** Where all but the last event of the lines is quiet, so is the first line and all but the last of the rest. */
  lemma {:induction false} QuietParts(
      fs: FileSystem, source: string, lines: seq<string>, i: nat, base: Option<string>, flag: bool,
      visited: set<string>)
    requires i < |lines|
    ensures var line := WalkLine(fs, source, lines[i], i + 1, base, flag, visited);
      var rest := WalkLines(fs, source, lines, i + 1, base, line.insideMatch, line.visited);
      var w := WalkLines(fs, source, lines, i, base, flag, visited);
      && w == line.Then(rest) && EndsFile(w.events) && EndsFile(rest.events)
      && (EndsQuietly(Init(w.events), flag) <==>
          EndsQuietly(line.events, flag) && EndsQuietly(Init(rest.events), line.insideMatch))
  {
    var line := WalkLine(fs, source, lines[i], i + 1, base, flag, visited);
    var rest := WalkLines(fs, source, lines, i + 1, base, line.insideMatch, line.visited);
    FirstLineThenRest(fs, source, lines, i, base, flag, visited);
    WalkEndsFile(fs, source, lines, i, base, flag, visited);
    WalkEndsFile(fs, source, lines, i + 1, base, line.insideMatch, line.visited);
    WalkLineIsSound(fs, source, lines[i], i + 1, base, flag, visited);
    InitOfAppend(line.events, rest.events);
    QuietAppend(line.events, Init(rest.events), flag);
  }

  /** All but the last event of the lines from `i` on is quiet. */
  ghost predicate QuietFrom(fs: FileSystem, p: string, i: nat, visited: set<string>)
    requires p in fs.files && i <= |fs.files[p].lines|
  {
    var events := OwnLines(fs, p, i, visited).events;
    events != [] && EndsQuietly(Init(events), FlagBefore(fs.files[p].lines, i))
  }

  ghost predicate LinesAreExplored(fs: FileSystem, p: string, i: nat, before: set<string>, after: set<string>)
    requires p in fs.files
  {
    NewIsExplored(fs, {p}, before, after) && IncludedFrom(fs, fs.files[p], i, after)
  }

  lemma ExploredFromLine(
      fs: FileSystem, p: string, i: nat, before: set<string>, line: set<string>, after: set<string>)
    requires p in fs.files && NewIsExplored(fs, {p}, before, line) && LinesAreExplored(fs, p, i + 1, line, after)
    requires forall q :: LineIncludes(fs, fs.files[p], i, q) ==> fs.files[q].identity in line
    ensures LinesAreExplored(fs, p, i, before, after)
  {
    ExploredThen(fs, {p}, before, line, after);
    IncludedFromLine(fs, fs.files[p], i, line, after);
  }

  /** After a line that is explored, the rest goes on under the file's own headers. */
  lemma {:induction false} GoesOn(fs: FileSystem, p: string, i: nat, visited: set<string>)
    requires p in fs.files && i < |fs.files[p].lines|
    requires OwnLine(fs, p, i, visited).insideMatch == FlagBefore(fs.files[p].lines, i + 1)
    ensures var line := OwnLine(fs, p, i, visited);
      && OwnLines(fs, p, i, visited) == line.Then(OwnLines(fs, p, i + 1, line.visited))
      && (QuietFrom(fs, p, i, visited) ==> QuietFrom(fs, p, i + 1, line.visited))
  {
    var file := fs.files[p];
    QuietParts(fs, p, file.lines, i, file.parent, FlagBefore(file.lines, i), visited);
  }

  lemma {:induction false} FirstLineExplored(fs: FileSystem, p: string, i: nat, visited: set<string>, n: nat)
    requires ExploredBelow(fs, n) && Unvisited(fs, visited) < n && p in fs.files && i < |fs.files[p].lines|
    requires QuietFrom(fs, p, i, visited)
    ensures var w := OwnLine(fs, p, i, visited);
      && NewIsExplored(fs, {p}, visited, w.visited) && w.insideMatch == FlagBefore(fs.files[p].lines, i + 1)
      && forall q :: LineIncludes(fs, fs.files[p], i, q) ==> fs.files[q].identity in w.visited
  {
    var file := fs.files[p];
    QuietParts(fs, p, file.lines, i, file.parent, FlagBefore(file.lines, i), visited);
    LineExplored(fs, p, i, visited, n);
  }

  lemma {:induction false} LinesExplored(fs: FileSystem, p: string, i: nat, visited: set<string>, n: nat)
    requires ExploredBelow(fs, n) && Unvisited(fs, visited) < n && p in fs.files && i <= |fs.files[p].lines|
    requires QuietFrom(fs, p, i, visited)
    ensures LinesAreExplored(fs, p, i, visited, OwnLines(fs, p, i, visited).visited)
    ensures OwnLines(fs, p, i, visited).insideMatch == FlagBefore(fs.files[p].lines, |fs.files[p].lines|)
    decreases |fs.files[p].lines| - i
  {
    if i < |fs.files[p].lines| {
      var line := OwnLine(fs, p, i, visited);
      FirstLineExplored(fs, p, i, visited, n);
      GoesOn(fs, p, i, visited);
      UnvisitedShrinks(fs, visited, line.visited);
      LinesExplored(fs, p, i + 1, line.visited, n);
      ExploredFromLine(fs, p, i, visited, line.visited, OwnLines(fs, p, i + 1, line.visited).visited);
    }
  }

  lemma {:induction false} IncludedFromIsClosed(fs: FileSystem, p: string, after: set<string>)
    requires IdentitiesNameFiles(fs) && p in fs.files && IncludedFrom(fs, fs.files[p], 0, after)
    ensures Closed(fs, fs.files[p].identity, after)
  {
    forall f, q | f in fs.files && fs.files[f].identity == fs.files[p].identity && FileIncludes(fs, f, q)
      ensures fs.files[q].identity in after
    {
      var i :| LineIncludes(fs, fs.files[f], i, q);
      assert LineIncludes(fs, fs.files[p], i, q);
    }
  }

  /**
   * A file that is read, with nothing carrying over from its includes: all it leads to is explored, and it is closed.
   */
  lemma {:induction false} EnteredFileExplored(fs: FileSystem, p: string, visited: set<string>, n: nat)
    requires IdentitiesNameFiles(fs) && ExploredBelow(fs, n) && Unvisited(fs, visited) <= n
    requires p in fs.files && fs.files[p].identity !in visited
    requires var events := WalkFile(fs, p, false, visited).events; events != [] && EndsQuietly(Init(events), false)
    ensures var w, id := WalkFile(fs, p, false, visited), fs.files[p].identity;
      && NewIsExplored(fs, {p}, visited + {id}, w.visited) && id in w.visited
      && Closed(fs, id, w.visited) && w.insideMatch == EndsInMatch(fs.files[p].lines, 0, false)
  {
    var file := fs.files[p];
    var more := visited + {file.identity};
    assert file.identity in Identities(fs);
    UnvisitedShrinks(fs, visited, more);
    WalkEndsFile(fs, p, file.lines, 0, file.parent, false, more);
    EnterIsQuiet(file.identity, OwnLines(fs, p, 0, more).events);
    LinesExplored(fs, p, 0, more, n);
    IncludedFromIsClosed(fs, p, OwnLines(fs, p, 0, more).visited);
    FlagAtEnd(file.lines, |file.lines|);
  }

  lemma {:induction false} OneFileExplored(fs: FileSystem, p: string, visited: set<string>, n: nat)
    requires IdentitiesNameFiles(fs) && ExploredBelow(fs, n) && Unvisited(fs, visited) <= n
    requires p in fs.files && EndsQuietly(WalkFile(fs, p, false, visited).events, false)
    ensures FileExplored(fs, p, visited, WalkFile(fs, p, false, visited).visited)
  {
    var id, w := fs.files[p].identity, WalkFile(fs, p, false, visited);
    if id !in visited {
      EnteredFileExplored(fs, p, visited, n);
      QuietFileEndsOutside(fs, p, visited);
      ReachesItself(fs, p);
      assert p in {p} && Explored(fs, {p}, id, w.visited);
    }
  }

  lemma {:induction false} ExploredUpTo(fs: FileSystem, n: nat)
    requires IdentitiesNameFiles(fs)
    ensures ExploredBelow(fs, n)
  {
    if n > 0 {
      ExploredUpTo(fs, n - 1);
      forall p, v | p in fs.files && Unvisited(fs, v) < n && EndsQuietly(WalkFile(fs, p, false, v).events, false)
        ensures FileExplored(fs, p, v, WalkFile(fs, p, false, v).visited)
      {
        OneFileExplored(fs, p, v, n - 1);
      }
    }
  }

  // ----- the import of a start file

  lemma {:induction false} ClosedFollowsChains(
      fs: FileSystem, chain: seq<string>, p: string, visited: set<string>, k: nat)
    requires IsChain(fs, chain, p) && k < |chain| && fs.files[p].identity in visited
    requires forall id :: id in visited ==> Closed(fs, id, visited)
    ensures fs.files[chain[k]].identity in visited
  {
    if k > 0 {
      ClosedFollowsChains(fs, chain, p, visited, k - 1);
      assert FileIncludes(fs, chain[k - 1], chain[k]);
    }
  }

  lemma {:induction false} ReachedIsVisited(fs: FileSystem, path: string, q: string, visited: set<string>)
    requires path in fs.files && fs.files[path].identity in visited && ReachesFile(fs, path, q)
    requires forall id :: id in visited ==> Closed(fs, id, visited)
    ensures q in fs.files && fs.files[q].identity in visited
  {
    var chain :| Leads(fs, chain, path, q);
    ClosedFollowsChains(fs, chain, path, visited, |chain| - 1);
  }

  /** Where nothing carries over, all that was visited is closed, and all but the start file is explored. */
  lemma {:induction false} ImportExplored(fs: FileSystem, path: string)
    requires path in fs.files && IdentitiesNameFiles(fs) && NothingCarriesOver(fs, path)
    ensures var visited, id := WalkFile(fs, path, false, {}).visited, fs.files[path].identity;
      && id in visited && NewIsExplored(fs, {path}, {id}, visited)
      && forall i :: i in visited ==> Closed(fs, i, visited)
  {
    var id, visited := fs.files[path].identity, WalkFile(fs, path, false, {}).visited;
    ExploredUpTo(fs, Unvisited(fs, {}));
    EnteredFileExplored(fs, path, {}, Unvisited(fs, {}));
    assert {} + {id} == {id};
    forall i | i in visited ensures Closed(fs, i, visited) {
      if i != id {
        assert Explored(fs, {path}, i, visited);
      }
    }
  }

  /** No included file's Match block carries over exactly when no file that the start file leads to ends in one. */
  lemma {:induction false} NothingCarriesOverExactlyWhen(fs: FileSystem, path: string)
    requires path in fs.files && IdentitiesNameFiles(fs)
    ensures NothingCarriesOver(fs, path) <==> OthersEndOutside(fs, path)
  {
    if OthersEndOutside(fs, path) {
      NothingCarriesOverWhenOthersEndOutside(fs, path);
    }
    if NothingCarriesOver(fs, path) {
      var visited := WalkFile(fs, path, false, {}).visited;
      ImportExplored(fs, path);
      forall q | ReachesFile(fs, path, q) && q in fs.files && fs.files[q].identity != fs.files[path].identity
        ensures !EndsInMatch(fs.files[q].lines, 0, false)
      {
        ReachedIsVisited(fs, path, q, visited);
        assert Explored(fs, {path}, fs.files[q].identity, visited);
      }
    }
  }

  lemma {:induction false} EnteredIsVisited(fs: FileSystem, path: string)
    requires path in fs.files
    ensures forall id :: id in Entered(WalkFile(fs, path, false, {}).events) <==>
      id in WalkFile(fs, path, false, {}).visited
  {
    WalkFileIsSound(fs, path, false, {});
  }

  /** The import parses exactly the files that the start file reaches through Include lines outside Match blocks. */
  lemma {:induction false} ExactlyReachableFilesAreRead(fs: FileSystem, path: string, id: string)
    requires path in fs.files && IdentitiesNameFiles(fs) && OthersEndOutside(fs, path)
    ensures id in Entered(WalkFile(fs, path, false, {}).events) <==> Reaches(fs, path, id)
  {
    var visited := WalkFile(fs, path, false, {}).visited;
    EnteredIsVisited(fs, path);
    NothingCarriesOverWhenOthersEndOutside(fs, path);
    ImportExplored(fs, path);
    if id in visited {
      if id == fs.files[path].identity {
        ReachesItself(fs, path);
      } else {
        assert Explored(fs, {path}, id, visited);
      }
    }
    if Reaches(fs, path, id) {
      var q :| ReachesAs(fs, path, q, id);
      ReachedIsVisited(fs, path, q, visited);
    }
  }

  // ----- a start file may end in a Match block

  /** `main` includes `a` and then opens a Match block; `a` is empty. */
  function EndingInMatch(n: Names): FileSystem {
    FileSystem(
      map[n.main := File([PrintDirective(n.directive, [n.a]), PrintDirective(n.header, ["all"])], n.main, Some(n.base)),
          n.a := File([], n.a, Some(n.base))],
      (patterns: seq<string>, base: string) => Expansion(patterns, []))
  }

  lemma {:induction false} IncludeThenMatch(
      lines: seq<string>, keyword: string, patterns: seq<string>, header: string, parts: seq<string>)
    requires |lines| == 2 && KindOf(keyword) == IncludeKind && KindOf(header) == MatchKind
    requires ParseLine(lines[0]) == Some((keyword, patterns)) && ParseLine(lines[1]) == Some((header, parts))
    ensures EndsInMatch(lines, 0, false)
  {
    assert FlagAfterLine(lines[0], false) == false && FlagAfterLine(lines[1], false) == true;
    assert EndsInMatch(lines, 2, true) && EndsInMatch(lines, 1, false);
  }

  lemma EmptyEndsOutside(lines: seq<string>)
    requires lines == []
    ensures !EndsInMatch(lines, 0, false)
  {
  }

  lemma OnlyOneOther(fs: FileSystem, main: string, a: string)
    requires main in fs.files && a in fs.files && fs.files[a].lines == []
    requires forall p :: p in fs.files ==> p == main || p == a
    ensures OthersEndOutside(fs, main)
  {
    EmptyEndsOutside(fs.files[a].lines);
  }

  lemma EndingFiles(n: Names)
    requires n.main != n.a
    ensures var fs := EndingInMatch(n);
      && n.main in fs.files && n.a in fs.files && (forall p :: p in fs.files ==> p == n.main || p == n.a)
      && fs.files[n.a].lines == []
      && fs.files[n.main].lines == [PrintDirective(n.directive, [n.a]), PrintDirective(n.header, ["all"])]
  {
  }

  /** The start file's own end counts for nothing: it ends in a Match block here, and yet nothing carries over. */
  lemma {:induction false} StartMayEndInMatch(n: Names)
    requires n == EXAMPLE
    ensures var fs := EndingInMatch(n);
      n.main in fs.files && EndsInMatch(fs.files[n.main].lines, 0, false)
      && OthersEndOutside(fs, n.main) && NothingCarriesOver(fs, n.main)
  {
    ExampleNames(n);
    EndingFiles(n);
    NothingCarriesOverFrom(EndingInMatch(n), n, ["all"]);
  }

  lemma {:induction false} NothingCarriesOverFrom(fs: FileSystem, n: Names, parts: seq<string>)
    requires n.main in fs.files && n.a in fs.files && (forall p :: p in fs.files ==> p == n.main || p == n.a)
    requires fs.files[n.a].lines == []
    requires fs.files[n.main].lines == [PrintDirective(n.directive, [n.a]), PrintDirective(n.header, parts)]
    requires IsBareKeyword(n.directive) && KindOf(n.directive) == IncludeKind
    requires IsBareKeyword(n.header) && KindOf(n.header) == MatchKind
    ensures EndsInMatch(fs.files[n.main].lines, 0, false)
    ensures OthersEndOutside(fs, n.main) && NothingCarriesOver(fs, n.main)
  {
    QuotingRoundTrip(n.directive, [n.a]);
    QuotingRoundTrip(n.header, parts);
    IncludeThenMatch(fs.files[n.main].lines, n.directive, [n.a], n.header, parts);
    OnlyOneOther(fs, n.main, n.a);
    NothingCarriesOverWhenOthersEndOutside(fs, n.main);
  }
}
