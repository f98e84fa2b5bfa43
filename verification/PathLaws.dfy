/** Laws that fix path normalisation and prefix mapping on their texts. */
module PathLaws {
  import opened Wrappers
  import opened Text
  import opened PathMapping

  // ----- what a component in the middle of a path does

  lemma MiddleSegment(a: string, segment: string, b: string)
    requires '/' !in segment
    ensures NamesOf(a + "/" + segment + "/" + b) == Resolve(Push(NamesOf(a), segment), Segments(b))
  {
    NamesAppend(a + "/" + segment, b);
    NamesAppend(a, segment);
    SegmentsOfPlain(segment);
    ResolveOne(NamesOf(a), segment);
  }

  /** `.` and empty components vanish wherever they stand. */
  lemma DotVanishes(a: string, b: string)
    requires a != []
    ensures Lexical(a + "/./" + b) == Lexical(a + "/" + b)
    ensures Lexical(a + "//" + b) == Lexical(a + "/" + b)
  {
    NamesAppend(a, b);
    MiddleSegment(a, ".", b);
    assert a + "/" + "." + "/" + b == a + "/./" + b;
    MiddleSegment(a, "", b);
    assert a + "/" + "" + "/" + b == a + "//" + b;
  }

  /** `..` takes back the name before it wherever the two stand. */
  lemma ParentCancels(a: string, name: string, b: string)
    requires a != [] && IsName(name)
    ensures Lexical(a + "/" + name + "/../" + b) == Lexical(a + "/" + b)
  {
    NamesAppend(a, b);
    MiddleSegment(a + "/" + name, "..", b);
    assert (a + "/" + name) + "/" + ".." + "/" + b == a + "/" + name + "/../" + b;
    NamesAppend(a, name);
    SegmentsOfPlain(name);
    ResolveOne(NamesOf(a), name);
  }

  /** At the start `..` has nothing to take back. */
  lemma StartIsTop(b: string)
    ensures Lexical("/../" + b) == Lexical("/" + b)
    ensures Lexical("../" + b) == Path(false, NamesOf(b))
  {
    assert "/" + b == "" + "/" + b && "/../" + b == "" + "/" + ".." + "/" + b && "../" + b == ".." + "/" + b;
    MiddleSegment("", "..", b);
    NamesAppend("", b);
    NamesAppend("..", b);
    SegmentsOfPlain("..");
    SegmentsOfPlain("");
    ResolveOne([], "..");
    ResolveOne([], "");
  }

  // ----- which prefix a path is mapped by

  predicate IsBlank(s: string) {
    Trim(s) == []
  }

  /** A path is covered by a prefix that its names start with, and any path by an empty relative prefix. */
  lemma CoverMeaning(cwd: Path, m: Mapping)
    ensures Matches(cwd, m) <==>
      && !IsBlank(m.localPrefix) && !IsBlank(m.remotePrefix)
      && var local := Lexical(Trim(m.localPrefix));
         || (!local.absolute && local.names == [])
         || (local.absolute == cwd.absolute && exists rest :: cwd.names == local.names + rest)
  {
    var local := LocalOf(m);
    if Matches(cwd, m) && local != Path(false, []) {
      assert cwd.names == local.names + cwd.names[|local.names|..];
    }
  }

  /** The prefix with the most names wins. Of equally long ones it is the first, but `/` wins over an empty one. */
  lemma LongestPrefixWins(cwd: Path, mappings: seq<Mapping>, i: int, j: int)
    requires Chosen(cwd, mappings, i) && 0 <= j < |mappings| && Matches(cwd, mappings[j])
    ensures |LocalOf(mappings[j]).names| <= |LocalOf(mappings[i]).names|
    ensures j < i && |LocalOf(mappings[j]).names| == |LocalOf(mappings[i]).names| ==>
      LocalOf(mappings[j]) == Path(false, []) && LocalOf(mappings[i]) == Path(true, [])
    ensures LocalOf(mappings[i]) == Path(false, []) ==> LocalOf(mappings[j]) == Path(false, [])
  {
  }

  /** Below a usable local prefix every path is mapped, whatever else is configured. */
  lemma PathsBelowAreMapped(mappings: seq<Mapping>, j: int, names: seq<string>)
    requires 0 <= j < |mappings| && Clean(names) && names != []
    requires !IsBlank(mappings[j].localPrefix) && !IsBlank(mappings[j].remotePrefix)
    ensures MapPath(PushText(Trim(mappings[j].localPrefix), Path(false, names)), mappings).Some?
  {
    var local := Trim(mappings[j].localPrefix);
    var cwd := PushText(local, Path(false, names));
    LexicalOfJoin(local, names);
    MapPathMeaning(cwd, mappings);
    assert Matches(Lexical(cwd), mappings[j]);
  }

  /** And where it is the only one configured, to the same names below the remote prefix. */
  lemma PathsBelowGoBelow(m: Mapping, names: seq<string>)
    requires !IsBlank(m.localPrefix) && !IsBlank(m.remotePrefix) && Clean(names) && names != []
    requires Lexical(Trim(m.localPrefix)) != Path(false, [])
    ensures var remote := MapPath(PushText(Trim(m.localPrefix), Path(false, names)), [m]);
      && remote.Some?
      && Lexical(remote.value) == Path(RemoteOf(m).absolute, RemoteOf(m).names + names)
  {
    var cwd := PushText(Trim(m.localPrefix), Path(false, names));
    LexicalOfJoin(Trim(m.localPrefix), names);
    LexicalIsClean(cwd);
    assert Matches(Lexical(cwd), [m][0]);
    MapPathMeaning(cwd, [m]);
    assert Chosen(Lexical(cwd), [m], 0);
    MappedMeaning(Lexical(cwd), m);
    var rel := Strip(Lexical(cwd), LocalOf(m)).value;
    assert rel.names == names;
  }
}
