/** How far a Match block carries in an SSH import, file by file. */
module SshIncludes {
  import opened Wrappers
  import opened Text
  import opened SshTokens
  import opened SshLines
  import opened SshImport
  import opened SshImportMeaning

  // ----- a file's own headers

  /** The flag after one line, if nothing that the line includes changes it. */
  function FlagAfterLine(raw: string, before: bool): bool {
    match ParseLine(raw)
    case None => before
    case Some(directive) => FlagAfterDirective(KindOf(directive.0), before)
  }

  function FlagAfterDirective(kind: Kind, before: bool): bool {
    match kind
    case HostKind => false
    case MatchKind => true
    case _ => before
  }

  /** Whether the lines from `i` on leave a Match block open, by their own Host and Match lines. */
  function EndsInMatch(lines: seq<string>, i: nat, before: bool): bool
    requires i <= |lines|
    decreases |lines| - i
  {
    if i == |lines| then before else EndsInMatch(lines, i + 1, FlagAfterLine(lines[i], before))
  }

  // ----- where files end

  /** Every end of file is met outside Match blocks. */
  ghost predicate EndsQuietly(events: seq<Event>, before: bool) {
    events == []
    || (EndsQuietly(events[..|events| - 1], before)
        && (events[|events| - 1] == EndOfFile ==> !InMatchAfter(events[..|events| - 1], before)))
  }

  /** All that is met before the last event. */
  function Init(events: seq<Event>): seq<Event>
    requires events != []
  {
    events[..|events| - 1]
  }

  lemma {:induction false} QuietAppend(a: seq<Event>, b: seq<Event>, before: bool)
    ensures EndsQuietly(a + b, before) <==> EndsQuietly(a, before) && EndsQuietly(b, InMatchAfter(a, before))
  {
    if b == [] {
      assert a + b == a;
    } else {
      assert (a + b)[..|a + b| - 1] == a + b[..|b| - 1];
      QuietAppend(a, b[..|b| - 1], before);
      EventsAppend(a, b[..|b| - 1], before);
    }
  }

  lemma QuietOne(e: Event, before: bool)
    requires e != EndOfFile
    ensures EndsQuietly([e], before)
  {
    assert [e][..0] == [];
  }

  lemma InitOfAppend(a: seq<Event>, b: seq<Event>)
    requires b != []
    ensures Init(a + b) == a + Init(b)
  {
  }

  /** With its last event, an end of file, a stretch is quiet when the rest is and it ends outside Match blocks. */
  lemma {:induction false} QuietWithEnd(events: seq<Event>, before: bool)
    requires EndsFile(events)
    ensures InMatchAfter(events, before) == InMatchAfter(Init(events), before)
    ensures EndsQuietly(events, before) <==> EndsQuietly(Init(events), before) && !InMatchAfter(events, before)
  {
  }

  ghost predicate QuietWalk(w: Walk) {
    !w.insideMatch && EndsQuietly(w.events, false)
  }

  // ----- walks that stay within a set of files

  /** What an Include line outside Match blocks expands to is in `scope`. */
  ghost predicate LineStays(fs: FileSystem, raw: string, base: Option<string>, flag: bool, scope: set<string>) {
    var directive := ParseLine(raw);
    !flag && base.Some? && directive.Some? && KindOf(directive.value.0) == IncludeKind ==>
      PathsStay(fs, fs.expand(directive.value.1, base.value).paths, scope)
  }

  ghost predicate PathsStay(fs: FileSystem, paths: seq<string>, scope: set<string>) {
    forall q :: q in paths && q in fs.files ==> q in scope
  }

  /** The lines from `i` on include files of `scope` only, as far as their own headers let them. */
  ghost predicate LinesStay(
      fs: FileSystem, lines: seq<string>, i: nat, base: Option<string>, flag: bool, scope: set<string>)
    requires i <= |lines|
    decreases |lines| - i
  {
    i == |lines|
    || (LineStays(fs, lines[i], base, flag, scope)
        && LinesStay(fs, lines, i + 1, base, FlagAfterLine(lines[i], flag), scope))
  }

  ghost predicate ScopeIsClosed(fs: FileSystem, scope: set<string>) {
    forall p :: p in scope && p in fs.files ==> LinesStay(fs, fs.files[p].lines, 0, fs.files[p].parent, false, scope)
  }

  lemma {:induction false} EverythingStays(
      fs: FileSystem, lines: seq<string>, i: nat, base: Option<string>, flag: bool)
    requires i <= |lines|
    ensures LinesStay(fs, lines, i, base, flag, fs.files.Keys)
    decreases |lines| - i
  {
    if i < |lines| {
      EverythingStays(fs, lines, i + 1, base, FlagAfterLine(lines[i], flag));
    }
  }

  lemma AllFilesAreClosed(fs: FileSystem)
    ensures ScopeIsClosed(fs, fs.files.Keys)
  {
    forall p | p in fs.files
      ensures LinesStay(fs, fs.files[p].lines, 0, fs.files[p].parent, false, fs.files.Keys)
    {
      EverythingStays(fs, fs.files[p].lines, 0, fs.files[p].parent, false);
    }
  }

  /** No file of the scope, but those already entered, ends in a Match block of its own. */
  ghost predicate NoOtherEndsInMatch(fs: FileSystem, scope: set<string>, entered: set<string>) {
    forall p :: p in scope && p in fs.files && fs.files[p].identity !in entered ==>
      !EndsInMatch(fs.files[p].lines, 0, false)
  }

  /** Walking a file of the scope from outside a Match block ends outside one. */
  ghost predicate NoWalkEndsInMatch(fs: FileSystem, scope: set<string>, entered: set<string>) {
    forall p, v :: p in scope && p in fs.files && entered <= v ==> !WalkFile(fs, p, false, v).insideMatch
  }

  /** The same, with every file on the way, as long as fewer than `n` identities are unvisited. */
  ghost predicate QuietBelow(fs: FileSystem, scope: set<string>, entered: set<string>, n: nat) {
    forall p, v :: p in scope && p in fs.files && entered <= v && Unvisited(fs, v) < n ==>
      QuietWalk(WalkFile(fs, p, false, v))
  }

  lemma {:induction false} PathFlag(fs: FileSystem, q: string, visited: set<string>)
    ensures var w := WalkPath(fs, q, false, visited); InMatchAfter(w.events, false) == w.insideMatch
  {
    if q in fs.files {
      WalkFileIsSound(fs, q, false, visited);
    }
  }

  lemma {:induction false} QuietPaths(
      fs: FileSystem, paths: seq<string>, visited: set<string>, scope: set<string>, entered: set<string>, n: nat)
    requires QuietBelow(fs, scope, entered, n) && entered <= visited && Unvisited(fs, visited) < n
    requires PathsStay(fs, paths, scope)
    ensures QuietWalk(WalkPaths(fs, paths, false, visited))
    decreases |paths|
  {
    if paths != [] {
      var first := WalkPath(fs, paths[0], false, visited);
      assert QuietWalk(first);
      UnvisitedShrinks(fs, visited, first.visited);
      QuietPaths(fs, paths[1..], first.visited, scope, entered, n);
      PathFlag(fs, paths[0], visited);
      QuietAppend(first.events, WalkPaths(fs, paths[1..], false, first.visited).events, false);
    }
  }

  lemma {:induction false} QuietDirective(
      fs: FileSystem, source: string, kind: Kind, parts: seq<string>, number: nat, base: Option<string>,
      insideMatch: bool, visited: set<string>, scope: set<string>, entered: set<string>, n: nat)
    requires QuietBelow(fs, scope, entered, n) && entered <= visited && Unvisited(fs, visited) < n
    requires kind == IncludeKind && !insideMatch && base.Some? ==>
      PathsStay(fs, fs.expand(parts, base.value).paths, scope)
    ensures var w := WalkDirective(fs, source, kind, parts, number, base, insideMatch, visited);
      w.insideMatch == FlagAfterDirective(kind, insideMatch) && EndsQuietly(w.events, insideMatch)
  {
    var w := WalkDirective(fs, source, kind, parts, number, base, insideMatch, visited);
    if kind == IncludeKind && !insideMatch && base.Some? {
      var paths := fs.expand(parts, base.value).paths;
      QuietPaths(fs, paths, visited, scope, entered, n);
      QuietOne(IncludeLine, false);
      SoundOne(fs, IncludeLine, false, visited, []);
      QuietAppend([IncludeLine], WalkPaths(fs, paths, false, visited).events, false);
    } else if kind != OtherKind {
      QuietOne(w.events[0], insideMatch);
    }
  }

  lemma {:induction false} QuietLine(
      fs: FileSystem, source: string, raw: string, number: nat, base: Option<string>, insideMatch: bool,
      visited: set<string>, scope: set<string>, entered: set<string>, n: nat)
    requires QuietBelow(fs, scope, entered, n) && entered <= visited && Unvisited(fs, visited) < n
    requires LineStays(fs, raw, base, insideMatch, scope)
    ensures var w := WalkLine(fs, source, raw, number, base, insideMatch, visited);
      w.insideMatch == FlagAfterLine(raw, insideMatch) && EndsQuietly(w.events, insideMatch)
  {
    var directive := ParseLine(raw);
    if directive.Some? {
      var (keyword, parts) := directive.value;
      QuietDirective(fs, source, KindOf(keyword), parts, number, base, insideMatch, visited, scope, entered, n);
    }
  }

  lemma {:induction false} QuietLines(
      fs: FileSystem, source: string, lines: seq<string>, i: nat, base: Option<string>, insideMatch: bool,
      visited: set<string>, scope: set<string>, entered: set<string>, n: nat)
    requires QuietBelow(fs, scope, entered, n) && entered <= visited && Unvisited(fs, visited) < n
    requires i <= |lines| && LinesStay(fs, lines, i, base, insideMatch, scope)
    ensures var w := WalkLines(fs, source, lines, i, base, insideMatch, visited);
      w.insideMatch == EndsInMatch(lines, i, insideMatch)
      && EndsFile(w.events) && EndsQuietly(Init(w.events), insideMatch)
    decreases |lines| - i
  {
    WalkEndsFile(fs, source, lines, i, base, insideMatch, visited);
    if i < |lines| {
      var line := WalkLine(fs, source, lines[i], i + 1, base, insideMatch, visited);
      var rest := WalkLines(fs, source, lines, i + 1, base, line.insideMatch, line.visited);
      FirstLineThenRest(fs, source, lines, i, base, insideMatch, visited);
      QuietLine(fs, source, lines[i], i + 1, base, insideMatch, visited, scope, entered, n);
      UnvisitedShrinks(fs, visited, line.visited);
      QuietLines(fs, source, lines, i + 1, base, line.insideMatch, line.visited, scope, entered, n);
      WalkLineIsSound(fs, source, lines[i], i + 1, base, insideMatch, visited);
      QuietAppend(line.events, Init(rest.events), insideMatch);
      InitOfAppend(line.events, rest.events);
    }
  }

  /** A file that is read ends where its own headers leave it, and everything it includes ends outside Match blocks. */
  lemma {:induction false} QuietFile(
      fs: FileSystem, p: string, visited: set<string>, scope: set<string>, entered: set<string>, n: nat)
    requires p in fs.files && p in scope && fs.files[p].identity !in visited && ScopeIsClosed(fs, scope)
    requires entered <= visited + {fs.files[p].identity}
    requires QuietBelow(fs, scope, entered, n) && Unvisited(fs, visited) <= n
    ensures var w := WalkFile(fs, p, false, visited);
      w.insideMatch == EndsInMatch(fs.files[p].lines, 0, false)
      && EndsFile(w.events) && EndsQuietly(Init(w.events), false) && (EndsQuietly(w.events, false) <==> !w.insideMatch)
  {
    var file, w := fs.files[p], WalkFile(fs, p, false, visited);
    var more := visited + {file.identity};
    var rest := WalkLines(fs, p, file.lines, 0, file.parent, false, more);
    assert file.identity in Identities(fs);
    UnvisitedShrinks(fs, visited, more);
    QuietLines(fs, p, file.lines, 0, file.parent, false, more, scope, entered, n);
    EnterIsQuiet(file.identity, rest.events);
    WalkFileIsSound(fs, p, false, visited);
    QuietWithEnd(w.events, false);
  }

  lemma {:induction false} EnterIsQuiet(identity: string, events: seq<Event>)
    requires EndsFile(events)
    ensures EndsFile([Enter(identity)] + events)
    ensures EndsQuietly(Init([Enter(identity)] + events), false) <==> EndsQuietly(Init(events), false)
  {
    var enter := [Enter(identity)];
    assert enter[..0] == [];
    QuietOne(Enter(identity), false);
    QuietAppend(enter, Init(events), false);
    InitOfAppend(enter, events);
  }

  lemma {:induction false} QuietUpTo(fs: FileSystem, scope: set<string>, entered: set<string>, n: nat)
    requires ScopeIsClosed(fs, scope)
    requires NoOtherEndsInMatch(fs, scope, entered) || NoWalkEndsInMatch(fs, scope, entered)
    ensures QuietBelow(fs, scope, entered, n)
  {
    if n > 0 {
      QuietUpTo(fs, scope, entered, n - 1);
      forall p, v | p in scope && p in fs.files && entered <= v && Unvisited(fs, v) < n
        ensures QuietWalk(WalkFile(fs, p, false, v))
      {
        if fs.files[p].identity !in v {
          QuietFile(fs, p, v, scope, entered, n - 1);
        }
      }
    }
  }

  /**
   * Files already entered aside (an import's start file is, all along), no walk of a file leaves its includer inside
   * a Match block exactly when no file ends in one by its own headers.
   */
  lemma {:induction false} MatchStaysInItsFile(fs: FileSystem, entered: set<string>)
    ensures NoOtherEndsInMatch(fs, fs.files.Keys, entered) <==> NoWalkEndsInMatch(fs, fs.files.Keys, entered)
  {
    var all := fs.files.Keys;
    AllFilesAreClosed(fs);
    if NoOtherEndsInMatch(fs, all, entered) {
      forall p, v | p in all && entered <= v ensures !WalkFile(fs, p, false, v).insideMatch {
        QuietUpTo(fs, all, entered, Unvisited(fs, v) + 1);
      }
    }
    if NoWalkEndsInMatch(fs, all, entered) {
      forall p | p in all && fs.files[p].identity !in entered ensures !EndsInMatch(fs.files[p].lines, 0, false) {
        QuietUpTo(fs, all, entered, Unvisited(fs, entered));
        QuietFile(fs, p, entered, all, entered, Unvisited(fs, entered));
      }
    }
  }

  /** Then every stretch of lines follows its own headers alone, whatever it includes. */
  lemma {:induction false} LinesFollowOwnHeaders(
      fs: FileSystem, source: string, lines: seq<string>, i: nat, base: Option<string>, insideMatch: bool,
      visited: set<string>)
    requires i <= |lines| && NoOtherEndsInMatch(fs, fs.files.Keys, visited)
    ensures WalkLines(fs, source, lines, i, base, insideMatch, visited).insideMatch ==
      EndsInMatch(lines, i, insideMatch)
  {
    var all, n := fs.files.Keys, Unvisited(fs, visited) + 1;
    AllFilesAreClosed(fs);
    EverythingStays(fs, lines, i, base, insideMatch);
    QuietUpTo(fs, all, visited, n);
    QuietLines(fs, source, lines, i, base, insideMatch, visited, all, visited, n);
  }

  // ----- a Match block that outlives its file

  /** File names and keywords of the example. */
  datatype Names = Names(main: string, a: string, b: string, directive: string, header: string, base: string)

  const EXAMPLE := Names("main", "a", "b", "Include", "Match", "/")

  /** `main` includes `a` and then `b`; `a` is one Match line, and `b` is empty. Patterns stand for themselves. */
  function Outliving(n: Names): FileSystem {
    FileSystem(
      map[
        n.main := File([PrintDirective(n.directive, [n.a]), PrintDirective(n.directive, [n.b])], n.main, Some(n.base)),
          n.a := File([PrintDirective(n.header, ["all"])], n.a, Some(n.base)),
          n.b := File([], n.b, Some(n.base))],
      (patterns: seq<string>, base: string) => Expansion(patterns, []))
  }

  lemma IncludeKeyword(w: string)
    requires w == "Include"
    ensures IsBareKeyword(w) && KindOf(w) == IncludeKind
  {
    forall i | 0 <= i < |w| ensures AsciiLower(w)[i] == "include"[i] {
      LowerAt(w, i);
    }
    assert AsciiLower(w) == "include";
  }

  lemma MatchKeyword(w: string)
    requires w == "Match"
    ensures IsBareKeyword(w) && KindOf(w) == MatchKind
  {
    forall i | 0 <= i < |w| ensures AsciiLower(w)[i] == "match"[i] {
      LowerAt(w, i);
    }
    assert AsciiLower(w) == "match";
  }

  lemma {:induction false} MatchFile(
      fs: FileSystem, p: string, keyword: string, parts: seq<string>, visited: set<string>)
    requires p in fs.files && |fs.files[p].lines| == 1 && fs.files[p].identity !in visited
    requires ParseLine(fs.files[p].lines[0]) == Some((keyword, parts)) && KindOf(keyword) == MatchKind
    ensures WalkFile(fs, p, false, visited).insideMatch
    ensures WalkFile(fs, p, false, visited).visited == visited + {fs.files[p].identity}
  {
    var file := fs.files[p];
    var more := visited + {file.identity};
    UnvisitedShrinks(fs, visited, more);
    FirstLineThenRest(fs, p, file.lines, 0, file.parent, false, more);
    assert WalkLine(fs, p, file.lines[0], 1, file.parent, false, more) == Walk([MatchLine], true, more, []);
  }

  lemma {:induction false} IncludeOfOne(
      fs: FileSystem, source: string, raw: string, keyword: string, patterns: seq<string>, number: nat,
      base: string, p: string, visited: set<string>)
    requires ParseLine(raw) == Some((keyword, patterns)) && KindOf(keyword) == IncludeKind
    requires fs.expand(patterns, base) == Expansion([p], []) && p in fs.files
    ensures var line := WalkLine(fs, source, raw, number, Some(base), false, visited);
      var file := WalkFile(fs, p, false, visited);
      line.insideMatch == file.insideMatch && line.visited == file.visited
  {
    assert [p][1..] == [];
    assert WalkPaths(fs, [p], false, visited).insideMatch == WalkPath(fs, p, false, visited).insideMatch;
    assert WalkPaths(fs, [p], false, visited).visited == WalkPath(fs, p, false, visited).visited;
  }

  lemma {:induction false} IncludeInMatch(
      fs: FileSystem, source: string, raw: string, keyword: string, patterns: seq<string>, number: nat,
      base: Option<string>, visited: set<string>)
    requires ParseLine(raw) == Some((keyword, patterns)) && KindOf(keyword) == IncludeKind
    ensures var line := WalkLine(fs, source, raw, number, base, true, visited);
      line.insideMatch && line.visited == visited
  {
  }

  lemma {:induction false} LastLine(
      fs: FileSystem, source: string, lines: seq<string>, i: nat, base: Option<string>, insideMatch: bool,
      visited: set<string>)
    requires i + 1 == |lines|
    ensures var w := WalkLines(fs, source, lines, i, base, insideMatch, visited);
      var line := WalkLine(fs, source, lines[i], i + 1, base, insideMatch, visited);
      w.insideMatch == line.insideMatch && w.visited == line.visited
  {
    FirstLineThenRest(fs, source, lines, i, base, insideMatch, visited);
  }

  /** Any file that includes a file of one Match line first ignores a second Include. */
  lemma {:induction false} SecondIncludeIgnored(
      fs: FileSystem, main: string, a: string, keyword: string, patterns: seq<string>, others: seq<string>,
      header: string, parts: seq<string>,
      base: string)
    requires main in fs.files && |fs.files[main].lines| == 2 && fs.files[main].parent == Some(base)
    requires ParseLine(fs.files[main].lines[0]) == Some((keyword, patterns)) &&
      ParseLine(fs.files[main].lines[1]) == Some((keyword, others))
    requires KindOf(keyword) == IncludeKind && fs.expand(patterns, base) == Expansion([a], [])
    requires a in fs.files && |fs.files[a].lines| == 1 && fs.files[a].identity != fs.files[main].identity
    requires ParseLine(fs.files[a].lines[0]) == Some((header, parts)) && KindOf(header) == MatchKind
    ensures WalkFile(fs, main, false, {}).insideMatch
    ensures WalkFile(fs, main, false, {}).visited == {fs.files[main].identity, fs.files[a].identity}
  {
    var file := fs.files[main];
    var entered := {file.identity};
    assert {} + entered == entered;
    UnvisitedShrinks(fs, {}, entered);
    FirstLineThenRest(fs, main, file.lines, 0, file.parent, false, entered);
    IncludeOfOne(fs, main, file.lines[0], keyword, patterns, 1, base, a, entered);
    MatchFile(fs, a, header, parts, entered);
    var both := entered + {fs.files[a].identity};
    LastLine(fs, main, file.lines, 1, file.parent, true, both);
    IncludeInMatch(fs, main, file.lines[1], keyword, others, 2, file.parent, both);
  }

  /** Two Include lines leave the flag alone. */
  lemma {:induction false} TwoIncludesEndOutside(
      lines: seq<string>, keyword: string, patterns: seq<string>, others: seq<string>)
    requires |lines| == 2 && KindOf(keyword) == IncludeKind
    requires ParseLine(lines[0]) == Some((keyword, patterns)) && ParseLine(lines[1]) == Some((keyword, others))
    ensures !EndsInMatch(lines, 0, false)
  {
    assert FlagAfterLine(lines[0], false) == false && FlagAfterLine(lines[1], false) == false;
    assert !EndsInMatch(lines, 2, false) && !EndsInMatch(lines, 1, false);
  }

  lemma {:induction false} OutlivingFiles(n: Names)
    requires n.main != n.a && n.main != n.b && n.a != n.b
    ensures var fs := Outliving(n);
      && n.main in fs.files && n.a in fs.files
      && fs.files[n.main] ==
        File([PrintDirective(n.directive, [n.a]), PrintDirective(n.directive, [n.b])], n.main, Some(n.base))
      && fs.files[n.a] == File([PrintDirective(n.header, ["all"])], n.a, Some(n.base))
      && fs.expand([n.a], n.base) == Expansion([n.a], [])
  {
  }

  lemma {:induction false} SecondIncludeOf(
      fs: FileSystem, n: Names, ia: string, ib: string, header: string, parts: seq<string>)
    requires n.main != n.a && n.main != n.b && n.a != n.b && n.main in fs.files && n.a in fs.files
    requires fs.files[n.main] == File([ia, ib], n.main, Some(n.base)) &&
      fs.files[n.a] == File([header], n.a, Some(n.base))
    requires fs.expand([n.a], n.base) == Expansion([n.a], [])
    requires ParseLine(ia) == Some((n.directive, [n.a])) && ParseLine(ib) == Some((n.directive, [n.b])) &&
      KindOf(n.directive) == IncludeKind
    requires ParseLine(header) == Some((n.header, parts)) && KindOf(n.header) == MatchKind
    ensures var w := WalkFile(fs, n.main, false, {}); w.insideMatch && n.a in w.visited && n.b !in w.visited
    ensures !EndsInMatch(fs.files[n.main].lines, 0, false)
  {
    TwoIncludesEndOutside(fs.files[n.main].lines, n.directive, [n.a], [n.b]);
    SecondIncludeIgnored(fs, n.main, n.a, n.directive, [n.a], [n.b], n.header, parts, n.base);
  }

  lemma ExampleNames(n: Names)
    requires n == EXAMPLE
    ensures n.main != n.a && n.main != n.b && n.a != n.b
    ensures IsBareKeyword(n.directive) && KindOf(n.directive) == IncludeKind
    ensures IsBareKeyword(n.header) && KindOf(n.header) == MatchKind
  {
    IncludeKeyword(n.directive);
    MatchKeyword(n.header);
    assert |n.main| != |n.a| == |n.b| && n.a[0] != n.b[0];
  }

  /**
   * The Match block of `a` carries over into `main`, which ends in none of its own: the Include of `b` is not followed.
   */
  lemma {:induction false} MatchOutlivesItsFile(n: Names)
    requires n == EXAMPLE
    ensures var w := WalkFile(Outliving(n), n.main, false, {}); w.insideMatch && n.a in w.visited && n.b !in w.visited
    ensures !EndsInMatch(Outliving(n).files[n.main].lines, 0, false)
  {
    var parts := ["all"];
    ExampleNames(n);
    OutlivingFiles(n);
    QuotingRoundTrip(n.directive, [n.a]);
    QuotingRoundTrip(n.directive, [n.b]);
    QuotingRoundTrip(n.header, parts);
    SecondIncludeOf(Outliving(n), n, PrintDirective(n.directive, [n.a]), PrintDirective(n.directive, [n.b]),
      PrintDirective(n.header, parts), parts);
  }
}
