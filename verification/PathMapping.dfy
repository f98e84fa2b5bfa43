/** Lexical path normalisation and the prefix mapping of working directories to remote targets and back. */
module PathMapping {
  import opened Wrappers
  import opened Text

  /** A `PathBuf` as `lexical_path` builds it: an optional root and the component names below it. */
  datatype Path = Path(absolute: bool, names: seq<string>)

  /** `mapping.local_prefix` to `mapping.remote_prefix`, as configured. */
  datatype Mapping = Mapping(localPrefix: string, remotePrefix: string)

  // ----- splitting and rendering

  /** The text between slashes; one segment more than there are slashes. */
  function Segments(s: string): (r: seq<string>)
    ensures r != []
  {
    if s == [] then [[]]
    else
      var rest := Segments(s[1..]);
      if s[0] == '/' then [[]] + rest else [[s[0]] + rest[0]] + rest[1..]
  }

  predicate IsName(segment: string) {
    segment != "" && segment != "." && segment != ".." && '/' !in segment
  }

  predicate Clean(names: seq<string>) {
    forall i :: 0 <= i < |names| ==> IsName(names[i])
  }

  /** One component on top of the normalised path: `.` and empty ones vanish, `..` pops, and never above the start. */
  function Push(names: seq<string>, segment: string): seq<string> {
    if segment == "" || segment == "." then names
    else if segment == ".." then if names == [] then [] else names[..|names| - 1]
    else names + [segment]
  }

  function Resolve(names: seq<string>, segments: seq<string>): seq<string> {
    if segments == [] then names else Push(Resolve(names, segments[..|segments| - 1]), segments[|segments| - 1])
  }

  function NamesOf(s: string): seq<string> {
    Resolve([], Segments(s))
  }

  function Lexical(s: string): Path {
    Path(s != [] && s[0] == '/', NamesOf(s))
  }

  method LexicalPath(s: string) returns (normalized: Path)
    ensures normalized == Lexical(s)
  {
    var segments := Segments(s);
    normalized := Path(s != [] && s[0] == '/', []);
    for i := 0 to |segments|
      invariant normalized == Path(s != [] && s[0] == '/', Resolve([], segments[..i]))
    {
      var segment := segments[i];
      assert segments[..i + 1][..i] == segments[..i];
      if segment == "" || segment == "." {
      } else if segment == ".." {
        if normalized.names != [] {
          normalized := normalized.(names := normalized.names[..|normalized.names| - 1]);
        }
      } else {
        normalized := normalized.(names := normalized.names + [segment]);
      }
    }
    assert segments[..|segments|] == segments;
  }

  function JoinNames(names: seq<string>): string {
    if names == [] then ""
    else if |names| == 1 then names[0]
    else names[0] + "/" + JoinNames(names[1..])
  }

  /** The text of a normalised path. */
  function Render(p: Path): string {
    (if p.absolute then "/" else "") + JoinNames(p.names)
  }

  // ----- laws of normalisation

  lemma {:induction false} SegmentsAppend(a: string, b: string)
    ensures var sa, sb := Segments(a), Segments(b); Segments(a + "/" + b) == sa + sb
  {
    if a == [] {
      assert a + "/" + b == "/" + b;
      assert ("/" + b)[1..] == b;
    } else {
      assert (a + "/" + b)[1..] == a[1..] + "/" + b;
      SegmentsAppend(a[1..], b);
    }
  }

  lemma {:induction false} SegmentsOfPlain(s: string)
    requires '/' !in s
    ensures Segments(s) == [s]
  {
    if s != [] {
      assert s[0] in s;
      assert forall c :: c in s[1..] ==> c in s;
      SegmentsOfPlain(s[1..]);
      assert s == [s[0]] + s[1..];
    }
  }

  lemma {:induction false} SegmentsHaveNoSlash(s: string)
    ensures forall i :: 0 <= i < |Segments(s)| ==> '/' !in Segments(s)[i]
  {
    if s != [] {
      SegmentsHaveNoSlash(s[1..]);
    }
  }

  lemma {:induction false} SegmentsOfNames(names: seq<string>)
    requires Clean(names) && names != []
    ensures Segments(JoinNames(names)) == names
  {
    SegmentsOfPlain(names[0]);
    if |names| > 1 {
      SegmentsOfNames(names[1..]);
      SegmentsAppend(names[0], JoinNames(names[1..]));
      assert names == [names[0]] + names[1..];
    } else {
      assert names == [names[0]];
    }
  }

  lemma {:induction false} ResolveAppend(names: seq<string>, a: seq<string>, b: seq<string>)
    ensures Resolve(names, a + b) == Resolve(Resolve(names, a), b)
  {
    if b == [] {
      assert a + b == a;
    } else {
      assert (a + b)[..|a + b| - 1] == a + b[..|b| - 1];
      ResolveAppend(names, a, b[..|b| - 1]);
    }
  }

  lemma {:induction false} ResolveClean(base: seq<string>, names: seq<string>)
    requires Clean(names)
    ensures Resolve(base, names) == base + names
  {
    if names != [] {
      ResolveClean(base, names[..|names| - 1]);
      assert names == names[..|names| - 1] + [names[|names| - 1]];
    }
  }

  lemma {:induction false} ResolveIsClean(names: seq<string>, segments: seq<string>)
    requires Clean(names) && forall i :: 0 <= i < |segments| ==> '/' !in segments[i]
    ensures Clean(Resolve(names, segments))
  {
    if segments != [] {
      ResolveIsClean(names, segments[..|segments| - 1]);
    }
  }

  /** A normalised path has no `.`, `..` or empty component. */
  lemma LexicalIsClean(s: string)
    ensures Clean(Lexical(s).names)
  {
    SegmentsHaveNoSlash(s);
    ResolveIsClean([], Segments(s));
  }

  /** Rendering a clean path and normalising it again gives the same path. */
  lemma LexicalOfRender(p: Path)
    requires Clean(p.names)
    ensures Lexical(Render(p)) == p
  {
    var text := JoinNames(p.names);
    ResolveClean([], p.names);
    if p.names == [] {
      assert Segments("") == [[]];
      SegmentsAppend("", "");
      assert Resolve([], [[]]) == Push(Resolve([], []), []);
      var twice: seq<string> := [[], []];
      assert twice[..1] == [[]];
      assert "" + "/" + "" == "/" && "/" + "" == "/";
    } else {
      SegmentsOfNames(p.names);
      JoinNamesStart(p.names);
      if p.absolute {
        SegmentsAppend("", text);
        assert "" + "/" + text == "/" + text;
        ResolveAppend([], [[]], p.names);
        assert Resolve([], [[]]) == Push(Resolve([], []), []);
      } else {
        assert Render(p) == text;
      }
    }
  }

  lemma JoinNamesStart(names: seq<string>)
    requires Clean(names) && names != []
    ensures JoinNames(names) != [] && JoinNames(names)[0] == names[0][0] != '/'
  {
    assert names[0][0] in names[0];
  }

  /** `lexical_path` is idempotent. */
  lemma LexicalIsIdempotent(s: string)
    ensures Lexical(Render(Lexical(s))) == Lexical(s)
  {
    LexicalIsClean(s);
    LexicalOfRender(Lexical(s));
  }

  lemma NamesAppend(a: string, b: string)
    ensures NamesOf(a + "/" + b) == Resolve(NamesOf(a), Segments(b))
  {
    SegmentsAppend(a, b);
    ResolveAppend([], Segments(a), Segments(b));
  }

  lemma ResolveOne(names: seq<string>, segment: string)
    ensures Resolve(names, [segment]) == Push(names, segment)
  {
    assert [segment][..0] == [];
  }

  /** A trailing slash names nothing. */
  lemma TrailingSlash(s: string)
    ensures NamesOf(s + "/") == NamesOf(s)
  {
    assert s + "/" + "" == s + "/";
    NamesAppend(s, "");
    ResolveOne(NamesOf(s), "");
  }

  lemma NamesOfAppended(s: string, names: seq<string>)
    requires Clean(names) && names != []
    ensures NamesOf(s + "/" + JoinNames(names)) == NamesOf(s) + names
  {
    NamesAppend(s, JoinNames(names));
    SegmentsOfNames(names);
    ResolveClean(NamesOf(s), names);
  }

  /** Appending a clean relative path appends its names, however the text in front is written. */
  lemma LexicalOfJoin(s: string, names: seq<string>)
    requires Clean(names) && names != [] && s != []
    ensures Lexical(PushText(s, Path(false, names))) == Path(Lexical(s).absolute, Lexical(s).names + names)
  {
    var text := JoinNames(names);
    assert Render(Path(false, names)) == text;
    if s[|s| - 1] == '/' {
      var front := s[..|s| - 1];
      assert s == front + "/" && s + text == front + "/" + text;
      TrailingSlash(front);
      NamesOfAppended(front, names);
    } else {
      NamesOfAppended(s, names);
    }
  }

  /** Going into a directory and out again is going nowhere. */
  lemma EnterAndLeave(s: string, name: string)
    requires IsName(name) && s != []
    ensures Lexical(s + "/" + name + "/..") == Lexical(s)
  {
    assert s + "/" + name + "/.." == (s + "/" + name) + "/" + "..";
    NamesAppend(s + "/" + name, "..");
    NamesAppend(s, name);
    SegmentsOfPlain(name);
    SegmentsOfPlain("..");
    ResolveOne(NamesOf(s), name);
    ResolveOne(NamesOf(s + "/" + name), "..");
  }

  // ----- mapping

  /** `PathBuf::push` of a normalised path onto a text: an absolute path replaces it. */
  function PushText(s: string, rel: Path): string {
    if rel.absolute then Render(rel)
    else if s != [] && s[|s| - 1] == '/' then s + Render(rel)
    else s + "/" + Render(rel)
  }

  /** `strip_prefix`, component by component. An empty prefix strips nothing, not even a root. */
  function Strip(p: Path, prefix: Path): Option<Path> {
    if prefix == Path(false, []) then Some(p)
    else if p.absolute == prefix.absolute && prefix.names <= p.names then Some(Path(false, p.names[|prefix.names|..]))
    else None
  }

  /** `components().count()`: the root counts too. */
  function ComponentCount(p: Path): nat {
    |p.names| + if p.absolute then 1 else 0
  }

  predicate Usable(m: Mapping) {
    Trim(m.localPrefix) != [] && Trim(m.remotePrefix) != []
  }

  function LocalOf(m: Mapping): Path {
    Lexical(Trim(m.localPrefix))
  }

  predicate Matches(cwd: Path, m: Mapping) {
    Usable(m) && Strip(cwd, LocalOf(m)).Some?
  }

  function Mapped(cwd: Path, m: Mapping): string
    requires Matches(cwd, m)
  {
    var rel := Strip(cwd, LocalOf(m)).value;
    var remote := Trim(m.remotePrefix);
    if rel == Path(false, []) then remote else PushText(remote, rel)
  }

  /** The fold over the candidates: a later one wins only with strictly more components. */
  function Best(cwd: Path, mappings: seq<Mapping>): Option<(nat, string)> {
    if mappings == [] then None
    else
      var best := Best(cwd, mappings[..|mappings| - 1]);
      var m := mappings[|mappings| - 1];
      if !Matches(cwd, m) then best
      else
        var score := ComponentCount(LocalOf(m));
        if best.Some? && best.value.0 >= score then best else Some((score, Mapped(cwd, m)))
  }

  function MapPath(cwd: string, mappings: seq<Mapping>): Option<string> {
    match Best(Lexical(cwd), mappings)
    case None => None
    case Some(best) => Some(best.1)
  }

  function Reversed(mappings: seq<Mapping>): (r: seq<Mapping>)
    ensures |r| == |mappings|
    ensures forall i :: 0 <= i < |r| ==> r[i] == Mapping(mappings[i].remotePrefix, mappings[i].localPrefix)
  {
    if mappings == [] then []
    else [Mapping(mappings[0].remotePrefix, mappings[0].localPrefix)] + Reversed(mappings[1..])
  }

  function MapRemoteToLocal(cwd: string, mappings: seq<Mapping>): Option<string> {
    MapPath(cwd, Reversed(mappings))
  }

  function Score(m: Mapping): nat {
    ComponentCount(LocalOf(m))
  }

  /** Mapping `i` is chosen: it matches with the most components, and is the first of those that do. */
  ghost predicate Chosen(cwd: Path, mappings: seq<Mapping>, i: int) {
    && 0 <= i < |mappings| && Matches(cwd, mappings[i])
    && forall j :: 0 <= j < |mappings| && Matches(cwd, mappings[j]) ==>
      Score(mappings[j]) <= Score(mappings[i]) && (j < i ==> Score(mappings[j]) < Score(mappings[i]))
  }

  ghost predicate NoneMatches(cwd: Path, mappings: seq<Mapping>) {
    forall j :: 0 <= j < |mappings| ==> !Matches(cwd, mappings[j])
  }

  /** The fold keeps the chosen mapping of what it has seen. */
  lemma {:induction false} BestIsChosen(cwd: Path, mappings: seq<Mapping>) returns (i: int)
    ensures Best(cwd, mappings).None? ==> NoneMatches(cwd, mappings)
    ensures Best(cwd, mappings).Some? ==> Chosen(cwd, mappings, i)
    ensures Best(cwd, mappings).Some? ==> Best(cwd, mappings).value == (Score(mappings[i]), Mapped(cwd, mappings[i]))
  {
    i := -1;
    if mappings != [] {
      var n := |mappings| - 1;
      i := BestIsChosen(cwd, mappings[..n]);
      var before := Best(cwd, mappings[..n]);
      if Matches(cwd, mappings[n]) && !(before.Some? && before.value.0 >= Score(mappings[n])) {
        ChosenLast(cwd, mappings, i);
        i := n;
      } else if before.Some? {
        ChosenExtends(cwd, mappings, i);
      } else {
        assert forall j :: 0 <= j < n ==> mappings[..n][j] == mappings[j];
      }
    }
  }

  lemma ChosenExtends(cwd: Path, mappings: seq<Mapping>, k: int)
    requires mappings != [] && Chosen(cwd, mappings[..|mappings| - 1], k)
    requires Matches(cwd, mappings[|mappings| - 1]) ==> Score(mappings[|mappings| - 1]) <= Score(mappings[k])
    ensures Chosen(cwd, mappings, k)
  {
    var front := mappings[..|mappings| - 1];
    forall j | 0 <= j < |mappings| && Matches(cwd, mappings[j])
      ensures Score(mappings[j]) <= Score(mappings[k]) && (j < k ==> Score(mappings[j]) < Score(mappings[k]))
    {
      if j < |front| { assert front[j] == mappings[j]; }
    }
  }

  lemma ChosenLast(cwd: Path, mappings: seq<Mapping>, k: int)
    requires mappings != [] && Matches(cwd, mappings[|mappings| - 1])
    requires NoneMatches(cwd, mappings[..|mappings| - 1])
      || (Chosen(cwd, mappings[..|mappings| - 1], k) && Score(mappings[k]) < Score(mappings[|mappings| - 1]))
    ensures Chosen(cwd, mappings, |mappings| - 1)
  {
    var front := mappings[..|mappings| - 1];
    forall j | 0 <= j < |mappings| - 1 && Matches(cwd, mappings[j])
      ensures Score(mappings[j]) < Score(mappings[|mappings| - 1])
    {
      assert front[j] == mappings[j];
    }
  }

  /** Mapping succeeds exactly when a usable prefix matches, and answers with the chosen one's text. */
  lemma MapPathMeaning(cwd: string, mappings: seq<Mapping>)
    ensures MapPath(cwd, mappings).None? <==> NoneMatches(Lexical(cwd), mappings)
    ensures forall i :: Chosen(Lexical(cwd), mappings, i) ==>
      MapPath(cwd, mappings) == Some(Mapped(Lexical(cwd), mappings[i]))
  {
    var k := BestIsChosen(Lexical(cwd), mappings);
    forall i | Chosen(Lexical(cwd), mappings, i) ensures i == k {
    }
  }

  function RemoteOf(m: Mapping): Path {
    Lexical(Trim(m.remotePrefix))
  }

  /** No usable remote prefix lies within another one. */
  ghost predicate RemotesNotNested(mappings: seq<Mapping>) {
    forall i, j :: 0 <= i < |mappings| && 0 <= j < |mappings| && i != j && Usable(mappings[i]) && Usable(mappings[j])
      ==> Strip(RemoteOf(mappings[i]), RemoteOf(mappings[j])).None?
  }

  /** A mapped path is the remote prefix followed by the rest of the path. */
  lemma MappedMeaning(cwd: Path, m: Mapping)
    requires Clean(cwd.names) && Matches(cwd, m) && !(cwd.absolute && LocalOf(m) == Path(false, []))
    ensures var rel := Strip(cwd, LocalOf(m)).value;
      && !rel.absolute && cwd == Path(cwd.absolute, LocalOf(m).names + rel.names)
      && (cwd.absolute == LocalOf(m).absolute)
      && Lexical(Mapped(cwd, m)) == Path(RemoteOf(m).absolute, RemoteOf(m).names + rel.names)
  {
    var rel := Strip(cwd, LocalOf(m)).value;
    if rel.names != [] {
      LexicalOfJoin(Trim(m.remotePrefix), rel.names);
    }
  }

  lemma Nested(a: Path, b: Path, p: Path)
    requires Strip(p, a).Some? && Strip(p, b).Some?
    ensures Strip(a, b).Some? || Strip(b, a).Some?
  {
    if |a.names| <= |b.names| && a != Path(false, []) && b != Path(false, []) {
      assert a.names == p.names[..|a.names|] == b.names[..|a.names|];
    } else if a != Path(false, []) && b != Path(false, []) {
      assert b.names == p.names[..|b.names|] == a.names[..|b.names|];
    }
  }

  /** Mapping out and back gives a path that is lexically the original. */
  ghost predicate RoundTrips(cwd: string, mappings: seq<Mapping>) {
    var remote := MapPath(cwd, mappings);
    remote.Some? &&
    var back := MapRemoteToLocal(remote.value, mappings);
    back.Some? && Lexical(back.value) == Lexical(cwd)
  }

  ghost predicate HasEmptyRemote(mappings: seq<Mapping>) {
    exists j :: 0 <= j < |mappings| && Usable(mappings[j]) && RemoteOf(mappings[j]) == Path(false, [])
  }

  /**
   * An absolute path that only empty local prefixes cover: stripping leaves it its root, so
   * that it replaces the remote prefix. No empty remote prefix is there to undo that.
   */
  ghost predicate Escapes(cwd: Path, mappings: seq<Mapping>) {
    && cwd.absolute
    && (forall j :: 0 <= j < |mappings| && Matches(cwd, mappings[j]) ==> LocalOf(mappings[j]) == Path(false, []))
    && !HasEmptyRemote(mappings)
  }

  /** Remote prefixes that are not nested cover a path one at a time. */
  lemma {:induction false} OneRemoteCovers(mappings: seq<Mapping>, i: int, j: int, remote: Path)
    requires RemotesNotNested(mappings) && 0 <= i < |mappings| && 0 <= j < |mappings|
    requires Matches(remote, Reversed(mappings)[i]) && Matches(remote, Reversed(mappings)[j])
    ensures i == j
  {
    Nested(RemoteOf(mappings[i]), RemoteOf(mappings[j]), remote);
  }

  lemma AloneIsChosen(cwd: Path, mappings: seq<Mapping>, i: int)
    requires 0 <= i < |mappings| && Matches(cwd, mappings[i])
    requires forall j :: 0 <= j < |mappings| && Matches(cwd, mappings[j]) ==> j == i
    ensures Chosen(cwd, mappings, i)
  {
  }

  lemma OnlyCoverIsChosen(mappings: seq<Mapping>, i: int, remote: Path)
    requires RemotesNotNested(mappings) && 0 <= i < |mappings| && Matches(remote, Reversed(mappings)[i])
    ensures Chosen(remote, Reversed(mappings), i)
  {
    var reversed := Reversed(mappings);
    forall j | 0 <= j < |mappings| && Matches(remote, reversed[j]) ensures j == i {
      OneRemoteCovers(mappings, i, j, remote);
    }
    AloneIsChosen(remote, reversed, i);
  }

  /** Mapped through `m`, a path is covered by the remote prefix, and mapping it through the reverse gives it back. */
  lemma MappedIsCovered(cwd: Path, m: Mapping)
    requires Clean(cwd.names) && Matches(cwd, m) && !(cwd.absolute && LocalOf(m) == Path(false, []))
    ensures var remote, back := Lexical(Mapped(cwd, m)), Mapping(m.remotePrefix, m.localPrefix);
      Matches(remote, back) && Lexical(Mapped(remote, back)) == cwd
  {
    var remote, back := Lexical(Mapped(cwd, m)), Mapping(m.remotePrefix, m.localPrefix);
    MappedMeaning(cwd, m);
    var rel := Strip(cwd, LocalOf(m)).value;
    assert remote.names[|RemoteOf(m).names|..] == rel.names;
    assert Matches(remote, back);
    LexicalIsClean(Mapped(cwd, m));
    MappedMeaning(remote, back);
  }

  /** Where the mapped path does not keep its root, only the mapping that was used leads back. */
  lemma SameMappingLeadsBack(cwd: Path, mappings: seq<Mapping>, i: int)
    requires Clean(cwd.names) && RemotesNotNested(mappings) && Chosen(cwd, mappings, i)
    requires !(cwd.absolute && LocalOf(mappings[i]) == Path(false, []))
    ensures Chosen(Lexical(Mapped(cwd, mappings[i])), Reversed(mappings), i)
    ensures Lexical(Mapped(Lexical(Mapped(cwd, mappings[i])), Reversed(mappings)[i])) == cwd
  {
    MappedIsCovered(cwd, mappings[i]);
    OnlyCoverIsChosen(mappings, i, Lexical(Mapped(cwd, mappings[i])));
  }

  /** With an empty remote prefix, not nesting leaves a single usable mapping. */
  lemma EmptyRemoteIsAlone(mappings: seq<Mapping>, i: int, j: int)
    requires RemotesNotNested(mappings) && HasEmptyRemote(mappings)
    requires 0 <= i < |mappings| && 0 <= j < |mappings| && Usable(mappings[i]) && Usable(mappings[j])
    ensures i == j && RemoteOf(mappings[i]) == Path(false, [])
  {
    var k :| 0 <= k < |mappings| && Usable(mappings[k]) && RemoteOf(mappings[k]) == Path(false, []);
    assert Strip(RemoteOf(mappings[i]), RemoteOf(mappings[k])).Some?;
    assert Strip(RemoteOf(mappings[j]), RemoteOf(mappings[k])).Some?;
  }

  /** An absolute path under an empty local prefix is mapped to its own text. */
  lemma EmptyLocalMapsToItself(cwd: Path, m: Mapping)
    requires Clean(cwd.names) && cwd.absolute && Matches(cwd, m) && LocalOf(m) == Path(false, [])
    ensures Mapped(cwd, m) == Render(cwd) && Lexical(Render(cwd)) == cwd
  {
    LexicalOfRender(cwd);
  }

  lemma EmptyPairLeadsBack(cwd: Path, mappings: seq<Mapping>, i: int)
    requires Clean(cwd.names) && cwd.absolute && RemotesNotNested(mappings) && HasEmptyRemote(mappings)
    requires Chosen(cwd, mappings, i) && LocalOf(mappings[i]) == Path(false, [])
    ensures Chosen(cwd, Reversed(mappings), i) && Mapped(cwd, Reversed(mappings)[i]) == Render(cwd)
  {
    var reversed := Reversed(mappings);
    EmptyRemoteIsAlone(mappings, i, i);
    EmptyLocalMapsToItself(cwd, reversed[i]);
    forall j | 0 <= j < |mappings| && Matches(cwd, reversed[j]) ensures j == i {
      EmptyRemoteIsAlone(mappings, i, j);
    }
  }

  lemma LeadingBackRoundTrips(cwd: string, mappings: seq<Mapping>, i: int)
    requires Chosen(Lexical(cwd), mappings, i)
    requires Chosen(Lexical(Mapped(Lexical(cwd), mappings[i])), Reversed(mappings), i)
    requires Lexical(Mapped(Lexical(Mapped(Lexical(cwd), mappings[i])), Reversed(mappings)[i])) == Lexical(cwd)
    ensures RoundTrips(cwd, mappings)
  {
    MapPathMeaning(cwd, mappings);
    MapPathMeaning(Mapped(Lexical(cwd), mappings[i]), Reversed(mappings));
  }

  lemma RoundTripsUnlessEscaping(cwd: string, mappings: seq<Mapping>)
    requires RemotesNotNested(mappings) && MapPath(cwd, mappings).Some? && !Escapes(Lexical(cwd), mappings)
    ensures RoundTrips(cwd, mappings)
  {
    var p := Lexical(cwd);
    LexicalIsClean(cwd);
    var i := BestIsChosen(p, mappings);
    if p.absolute && LocalOf(mappings[i]) == Path(false, []) {
      forall j | 0 <= j < |mappings| && Matches(p, mappings[j]) ensures LocalOf(mappings[j]) == Path(false, []) {
        assert Score(mappings[j]) <= 0;
      }
      EmptyLocalMapsToItself(p, mappings[i]);
      EmptyPairLeadsBack(p, mappings, i);
    } else {
      SameMappingLeadsBack(p, mappings, i);
    }
    LeadingBackRoundTrips(cwd, mappings, i);
  }

  /** A path that leads back through mapping `k` to itself is covered by the local prefix of `k`. */
  lemma LeadingBackCovers(cwd: Path, m: Mapping)
    requires Clean(cwd.names) && cwd.absolute && RemoteOf(m) != Path(false, [])
    requires Matches(cwd, Mapping(m.remotePrefix, m.localPrefix))
    requires Lexical(Mapped(cwd, Mapping(m.remotePrefix, m.localPrefix))) == cwd
    ensures Matches(cwd, m) && LocalOf(m) != Path(false, [])
  {
    MappedMeaning(cwd, Mapping(m.remotePrefix, m.localPrefix));
    assert |LocalOf(m).names| == |RemoteOf(m).names|;
  }

  lemma NoWayBackWhenEscaping(cwd: string, mappings: seq<Mapping>)
    requires MapPath(cwd, mappings).Some? && Escapes(Lexical(cwd), mappings)
    ensures !RoundTrips(cwd, mappings)
  {
    var p, reversed := Lexical(cwd), Reversed(mappings);
    LexicalIsClean(cwd);
    var i := BestIsChosen(p, mappings);
    EmptyLocalMapsToItself(p, mappings[i]);
    var k := BestIsChosen(p, reversed);
    if RoundTrips(cwd, mappings) {
      LeadingBackCovers(p, mappings[k]);
      assert false;
    }
  }

  /**
   * With remote prefixes that are not nested, a mapped path comes
   * back lexically unchanged exactly when it does not escape.
   */
  lemma RoundTripExactly(cwd: string, mappings: seq<Mapping>)
    requires RemotesNotNested(mappings) && MapPath(cwd, mappings).Some?
    ensures RoundTrips(cwd, mappings) <==> !Escapes(Lexical(cwd), mappings)
  {
    if Escapes(Lexical(cwd), mappings) {
      NoWayBackWhenEscaping(cwd, mappings);
    } else {
      RoundTripsUnlessEscaping(cwd, mappings);
    }
  }

  lemma DotPrefixReading()
    ensures LocalOf(Mapping(".", "/srv")) == Path(false, []) && Usable(Mapping(".", "/srv"))
    ensures RemoteOf(Mapping(".", "/srv")) == Path(true, ["srv"])
    ensures Lexical("/a") == Path(true, ["a"]) && Render(Path(true, ["a"])) == "/a"
  {
    TrimKeeps(".");
    TrimKeeps("/srv");
    SegmentsOfPlain(".");
    assert ["."][..0] == [];
    assert Resolve([], ["."]) == Push(Resolve([], []), ".");
    LexicalOfRender(Path(true, ["a"]));
    assert Render(Path(true, ["a"])) == "/a";
    LexicalOfRender(Path(true, ["srv"]));
    assert Render(Path(true, ["srv"])) == "/srv";
  }

  /**
   * The escape is real: a local prefix `.` sends `/a` to itself, outside the remote prefix, and nothing maps it back.
   */
  lemma DotPrefixEscapes()
    ensures var mappings := [Mapping(".", "/srv")];
      && MapPath("/a", mappings) == Some("/a")
      && MapRemoteToLocal("/a", mappings).None?
  {
    var m := Mapping(".", "/srv");
    var mappings := [m];
    var cwd := Path(true, ["a"]);
    DotPrefixReading();
    assert Matches(cwd, mappings[0]);
    var i := BestIsChosen(cwd, mappings);
    EmptyLocalMapsToItself(cwd, m);
    assert ["srv"][0] != ["a"][0];
    assert Strip(cwd, Path(true, ["srv"])).None?;
    assert !Matches(cwd, Reversed(mappings)[0]);
    var k := BestIsChosen(cwd, Reversed(mappings));
  }
}
