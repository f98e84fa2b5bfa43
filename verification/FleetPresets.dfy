/** Fleet lens presets: built-in ones first, overlay ones after them, every normalised id once. */
module FleetPresets {
  import opened Wrappers
  import opened Text
  import opened Seqs

  datatype BucketKind = TargetBucket | RepoBucket | AdvisoryBucket | StateBucket | ReadinessBucket | TransportBucket

  datatype Matcher =
    | All
    | FleetBucket(kind: BucketKind, key: string)
    | TargetId(key: string)
    | TargetKind(key: string)
    | Repo(key: string)
    | CurrentRepo
    | Readiness(key: string)
    | Transport(key: string)
    | Capability(key: string)
    | Degraded
    | NeedsAttention
  {
    predicate HasValue() {
      !All? && !CurrentRepo? && !Degraded? && !NeedsAttention?
    }
  }

  datatype Preset = Preset(id: string, title: string, source: string, matchers: seq<Matcher>)

  // ----- ids

  predicate IsIdChar(c: char) {
    'A' <= c <= 'Z' || 'a' <= c <= 'z' || IsDigit(c) || c == '-' || c == '_'
  }

  function Dashed(s: string): (r: string)
    ensures |r| == |s|
  {
    if s == [] then [] else [if IsIdChar(s[0]) then s[0] else '-'] + Dashed(s[1..])
  }

  function TrimDashesStart(s: string): string {
    if s != [] && s[0] == '-' then TrimDashesStart(s[1..]) else s
  }

  function TrimDashesEnd(s: string): string {
    if s != [] && s[|s| - 1] == '-' then TrimDashesEnd(s[..|s| - 1]) else s
  }

  function NormalizePresetId(raw: string): Option<string> {
    var id := TrimDashesEnd(TrimDashesStart(Dashed(AsciiLower(Trim(raw)))));
    if id == [] then None else Some(id)
  }

  /** Lower-case id characters, no dash at either end. */
  predicate IsNormal(id: string) {
    && id != [] && id[0] != '-' && id[|id| - 1] != '-'
    && forall i :: 0 <= i < |id| ==> IsIdChar(id[i]) && !('A' <= id[i] <= 'Z')
  }

  predicate LowerIdChars(s: string) {
    forall i :: 0 <= i < |s| ==> IsIdChar(s[i]) && !('A' <= s[i] <= 'Z')
  }

  lemma {:induction false} DashedLower(s: string)
    ensures LowerIdChars(Dashed(AsciiLower(s)))
  {
    if s != [] {
      DashedLower(s[1..]);
      assert AsciiLower(s)[1..] == AsciiLower(s[1..]);
    }
  }

  lemma {:induction false} TrimDashesMeaning(s: string)
    requires LowerIdChars(s)
    ensures var r := TrimDashesEnd(TrimDashesStart(s));
      LowerIdChars(r) && (r != [] ==> r[0] != '-' && r[|r| - 1] != '-')
  {
    TrimStartMeaning(s);
    TrimEndMeaning(TrimDashesStart(s));
  }

  lemma {:induction false} TrimStartMeaning(s: string)
    requires LowerIdChars(s)
    ensures var r := TrimDashesStart(s); LowerIdChars(r) && (r != [] ==> r[0] != '-')
  {
    if s != [] && s[0] == '-' {
      TrimStartMeaning(s[1..]);
    }
  }

  lemma {:induction false} TrimEndMeaning(s: string)
    requires LowerIdChars(s) && (s != [] ==> s[0] != '-')
    ensures var r := TrimDashesEnd(s); LowerIdChars(r) && (r != [] ==> r[0] != '-' && r[|r| - 1] != '-')
  {
    if s != [] && s[|s| - 1] == '-' {
      TrimEndMeaning(s[..|s| - 1]);
    }
  }

  lemma {:induction false} DashedKeeps(s: string)
    requires LowerIdChars(s)
    ensures Dashed(s) == s
  {
    if s != [] {
      assert IsIdChar(s[0]);
      DashedKeeps(s[1..]);
      assert s == [s[0]] + s[1..];
    }
  }

  lemma {:induction false} NormalizedIsNormal(raw: string)
    ensures NormalizePresetId(raw).Some? ==> IsNormal(NormalizePresetId(raw).value)
  {
    DashedLower(Trim(raw));
    TrimDashesMeaning(Dashed(AsciiLower(Trim(raw))));
  }

  lemma IdCharIsNotWhitespace(c: char)
    requires IsIdChar(c)
    ensures !IsWhitespace(c)
  {
  }

  lemma NoDashesToTrim(id: string)
    requires id != [] && id[0] != '-' && id[|id| - 1] != '-'
    ensures TrimDashesEnd(TrimDashesStart(id)) == id
  {
  }

  lemma {:induction false} NormalIsKept(id: string)
    requires IsNormal(id)
    ensures NormalizePresetId(id) == Some(id)
  {
    IdCharIsNotWhitespace(id[0]);
    IdCharIsNotWhitespace(id[|id| - 1]);
    TrimKeeps(id);
    LowerKeeps(id);
    DashedKeeps(id);
    NoDashesToTrim(id);
  }

  /** The ids that normalisation gives are exactly the normal ones, and it leaves those alone. */
  lemma {:induction false} NormalizeIsIdempotent(raw: string)
    ensures NormalizePresetId(raw).Some? ==> IsNormal(NormalizePresetId(raw).value)
    ensures IsNormal(raw) ==> NormalizePresetId(raw) == Some(raw)
  {
    NormalizedIsNormal(raw);
    if IsNormal(raw) {
      NormalIsKept(raw);
    }
  }

  // ----- labels

  /** `char::is_control`. */
  predicate IsControl(c: char) {
    c as int <= 0x1F || 0x7F <= c as int <= 0x9F
  }

  predicate IsPrintable(c: char) {
    !IsControl(c)
  }

  /** How many characters come before the first white space. */
  function WordLength(s: string): (n: nat)
    ensures n <= |s| && (n < |s| ==> IsWhitespace(s[n])) && forall i :: 0 <= i < n ==> !IsWhitespace(s[i])
  {
    if s == [] || IsWhitespace(s[0]) then 0 else 1 + WordLength(s[1..])
  }

  lemma TrimStartShrinks(s: string)
    ensures |TrimStart(s)| <= |s| && (TrimStart(s) != [] ==> !IsWhitespace(TrimStart(s)[0]))
    ensures forall c :: c in TrimStart(s) ==> c in s
  {
  }

  /** `split_whitespace`. */
  function Words(s: string): seq<string>
    decreases |s|
  {
    TrimStartShrinks(s);
    var t := TrimStart(s);
    if t == [] then []
    else
      var n := WordLength(t);
      [t[..n]] + Words(t[n..])
  }

  function JoinWords(words: seq<string>): string {
    if words == [] then []
    else if |words| == 1 then words[0]
    else words[0] + [' '] + JoinWords(words[1..])
  }

  const LABEL_CHARS: nat := 64

  function OneLine(raw: string): string {
    JoinWords(Words(Filter(IsPrintable, raw)))
  }

  function SanitizeLabel(raw: string): Option<string> {
    var line := OneLine(raw);
    if line == [] then None else Some(if |line| > LABEL_CHARS then line[..LABEL_CHARS] else line)
  }

  predicate IsWord(w: string) {
    w != [] && forall i :: 0 <= i < |w| ==> !IsWhitespace(w[i]) && !IsControl(w[i])
  }

  lemma {:induction false} WordsAreWords(s: string)
    requires forall c :: c in s ==> !IsControl(c)
    ensures forall i :: 0 <= i < |Words(s)| ==> IsWord(Words(s)[i])
    decreases |s|
  {
    TrimStartShrinks(s);
    var t := TrimStart(s);
    if t != [] {
      var n := WordLength(t);
      forall c | c in t[n..] ensures !IsControl(c) {
        assert c in t;
      }
      WordsAreWords(t[n..]);
      forall i | 0 <= i < n ensures !IsControl(t[..n][i]) {
        assert t[i] in t;
      }
    }
  }

  /** Words of printable characters, set apart by single blanks, none in front. */
  predicate IsOneLine(s: string) {
    && s != [] && s[0] != ' '
    && (forall i :: 0 <= i < |s| ==> !IsControl(s[i]) && (IsWhitespace(s[i]) ==> s[i] == ' '))
    && (forall i :: 0 < i < |s| ==> s[i - 1] != ' ' || s[i] != ' ')
  }

  predicate EndsInText(s: string) {
    s != [] && s[|s| - 1] != ' '
  }

  lemma {:induction false} WordThenLine(word: string, rest: string)
    requires IsWord(word) && IsOneLine(rest)
    ensures IsOneLine(word + [' '] + rest)
  {
    var all, n := word + [' '] + rest, |word|;
    forall i | 0 <= i < |all| ensures !IsControl(all[i]) && (IsWhitespace(all[i]) ==> all[i] == ' ') {
      assert i != n ==> all[i] == if i < n then word[i] else rest[i - n - 1];
    }
    forall i | 0 < i < |all| ensures all[i - 1] != ' ' || all[i] != ' ' {
      if i <= n {
        assert all[i - 1] == word[i - 1];
      } else if i == n + 1 {
        assert all[i] == rest[0];
      } else {
        assert all[i - 1] == rest[i - n - 2] && all[i] == rest[i - n - 1];
      }
    }
  }

  lemma {:induction false} JoinedIsOneLine(words: seq<string>)
    requires words != [] && forall i :: 0 <= i < |words| ==> IsWord(words[i])
    ensures IsOneLine(JoinWords(words)) && EndsInText(JoinWords(words))
  {
    assert IsWord(words[0]);
    if |words| > 1 {
      JoinedIsOneLine(words[1..]);
      WordThenLine(words[0], JoinWords(words[1..]));
    }
  }

  /** Splitting one line into words and joining them gives it back. */
  lemma {:induction false} OneLineIsItsWords(s: string)
    requires IsOneLine(s) && s[|s| - 1] != ' '
    ensures JoinWords(Words(s)) == s && Words(s) != []
    decreases |s|
  {
    assert !IsWhitespace(s[0]);
    var n := WordLength(s);
    if n == |s| {
      assert s[..n] == s && s[n..] == [];
    } else {
      var rest := s[n + 1..];
      assert s[n] == ' ' && s == s[..n] + [' '] + rest;
      assert rest[0] == s[n + 1] && s[n + 1] != ' ';
      forall i | 0 < i < |rest| ensures rest[i - 1] != ' ' || rest[i] != ' ' {
        assert s[n + i] != ' ' || s[n + 1 + i] != ' ';
      }
      OneLineIsItsWords(rest);
      assert s[n..][0] == ' ' && s[n..][1..] == rest;
      assert !IsWhitespace(rest[0]);
      assert TrimStart(s[n..]) == TrimStart(rest) == rest;
      assert Words(s[n..]) == Words(rest);
    }
  }

  lemma {:induction false} WordsAreNoLonger(s: string)
    ensures |JoinWords(Words(s))| <= |s|
    decreases |s|
  {
    TrimStartShrinks(s);
    var t := TrimStart(s);
    if t != [] {
      var n := WordLength(t);
      var rest := t[n..];
      if rest != [] {
        assert Words(rest) == Words(rest[1..]);
        WordsAreNoLonger(rest[1..]);
      }
    }
  }

  lemma {:induction false} PrintableKeeps(s: string)
    requires forall i :: 0 <= i < |s| ==> !IsControl(s[i])
    ensures Filter(IsPrintable, s) == s
  {
    if s != [] {
      PrintableKeeps(s[1..]);
      assert s == [s[0]] + s[1..];
    }
  }

  lemma {:induction false} RawLine(raw: string)
    ensures OneLine(raw) != [] ==> IsOneLine(OneLine(raw)) && OneLine(raw)[|OneLine(raw)| - 1] != ' '
  {
    FilterMembers(IsPrintable, raw);
    var words := Words(Filter(IsPrintable, raw));
    WordsAreWords(Filter(IsPrintable, raw));
    if words != [] {
      JoinedIsOneLine(words);
    }
  }

  /**
   * A label is one line of at most 64 characters, without control characters and without a blank in front. Only a line
   * that is longer is cut.
   */
  lemma {:induction false} LabelMeaning(raw: string)
    ensures SanitizeLabel(raw).None? <==> OneLine(raw) == ""
    ensures SanitizeLabel(raw).Some? ==>
      var line := SanitizeLabel(raw).value;
      IsOneLine(line) && |line| <= 64 && line <= OneLine(raw) && (line == OneLine(raw) || |line| == 64)
    ensures IsOneLine(raw) && |raw| <= LABEL_CHARS && raw[|raw| - 1] != ' ' ==> SanitizeLabel(raw) == Some(raw)
  {
    RawLine(raw);
    if IsOneLine(raw) && |raw| <= LABEL_CHARS && raw[|raw| - 1] != ' ' {
      PrintableKeeps(raw);
      OneLineIsItsWords(raw);
    }
  }

  lemma {:induction false} StableWithoutLastBlank(raw: string)
    requires SanitizeLabel(raw).Some?
    ensures var line := SanitizeLabel(raw).value; SanitizeLabel(line) == Some(line) <==> line[|line| - 1] != ' '
  {
    var line := SanitizeLabel(raw).value;
    LabelMeaning(raw);
    LabelMeaning(line);
    RawLine(line);
    WordsAreNoLonger(Filter(IsPrintable, line));
  }

  /** The cleaned line is too long, and the cut would come right behind a blank. */
  predicate CutsBehindBlank(raw: string) {
    |OneLine(raw)| > LABEL_CHARS && OneLine(raw)[LABEL_CHARS - 1] == ' '
  }

  /** Cleaning a label again changes nothing, except where the cut at 64 characters comes right behind a blank. */
  lemma {:induction false} LabelIsStable(raw: string)
    requires SanitizeLabel(raw).Some?
    ensures var line := SanitizeLabel(raw).value; SanitizeLabel(line) == Some(line) <==> !CutsBehindBlank(raw)
  {
    RawLine(raw);
    StableWithoutLastBlank(raw);
  }

  /** The cut does leave one: a word of 63 characters and another word behind it. */
  lemma {:induction false} CutLeavesBlank(word: string, next: string)
    requires IsWord(word) && |word| == LABEL_CHARS - 1 && IsWord(next)
    ensures SanitizeLabel(word + [' '] + next) == Some(word + [' ']) && CutsBehindBlank(word + [' '] + next)
  {
    var raw := word + [' '] + next;
    forall i | 0 <= i < |raw| ensures !IsControl(raw[i]) && (IsWhitespace(raw[i]) ==> raw[i] == ' ') {
      if i < |word| {
        assert raw[i] == word[i];
      } else if i > |word| {
        assert raw[i] == next[i - |word| - 1];
      }
    }
    forall i | 0 <= i < |raw| && i != |word| ensures raw[i] != ' ' {
      assert raw[i] == if i < |word| then word[i] else next[i - |word| - 1];
    }
    PrintableKeeps(raw);
    OneLineIsItsWords(raw);
    assert raw[..LABEL_CHARS] == word + [' '];
  }

  // ----- overlay presets

  function SanitizeMatcher(m: Matcher): Option<Matcher> {
    if !m.HasValue() then Some(m)
    else if Trim(m.key) == [] then None
    else
      match m
      case FleetBucket(kind, key) => Some(FleetBucket(kind, Trim(key)))
      case TargetId(key) => Some(TargetId(Trim(key)))
      case TargetKind(key) => Some(TargetKind(Trim(key)))
      case Repo(key) => Some(Repo(Trim(key)))
      case Readiness(key) => Some(Readiness(Trim(key)))
      case Transport(key) => Some(Transport(Trim(key)))
      case Capability(key) => Some(Capability(Trim(key)))
  }

  function SanitizeMatchers(matchers: seq<Matcher>): seq<Matcher> {
    if matchers == [] then []
    else (match SanitizeMatcher(matchers[0]) case None => [] case Some(m) => [m]) + SanitizeMatchers(matchers[1..])
  }

  /** `None` drops the preset: no usable id, no usable label, or no usable matcher. */
  function SanitizeOverlay(p: Preset): Option<Preset> {
    match (NormalizePresetId(p.id), SanitizeLabel(p.title))
    case (Some(id), Some(title)) =>
      var matchers := SanitizeMatchers(p.matchers);
      if matchers == [] then None else Some(Preset(id, title, "overlay", matchers))
    case _ => None
  }

  /** A matcher that needs a value has a nonempty one without white space at its ends. */
  predicate IsUsable(m: Matcher) {
    m.HasValue() ==> m.key != [] && !IsWhitespace(m.key[0]) && !IsWhitespace(m.key[|m.key| - 1])
  }

  lemma {:induction false} TrimEnds(s: string)
    ensures Trim(s) != [] ==> !IsWhitespace(Trim(s)[0]) && !IsWhitespace(Trim(s)[|Trim(s)| - 1])
  {
    TrimStartShrinks(s);
    TrimEndKeepsStart(TrimStart(s));
  }

  lemma {:induction false} TrimEndKeepsStart(s: string)
    requires s != [] ==> !IsWhitespace(s[0])
    ensures TrimEnd(s) != [] ==> !IsWhitespace(TrimEnd(s)[0]) && !IsWhitespace(TrimEnd(s)[|TrimEnd(s)| - 1])
  {
    if s != [] && IsWhitespace(s[|s| - 1]) {
      TrimEndKeepsStart(s[..|s| - 1]);
    }
  }

  lemma {:induction false} MatcherMeaning(m: Matcher)
    ensures SanitizeMatcher(m).None? <==> m.HasValue() && Trim(m.key) == []
    ensures SanitizeMatcher(m).Some? ==> IsUsable(SanitizeMatcher(m).value)
    ensures IsUsable(m) ==> SanitizeMatcher(m) == Some(m)
  {
    if m.HasValue() {
      TrimEnds(m.key);
      if IsUsable(m) {
        TrimKeeps(m.key);
      }
    }
  }

  lemma {:induction false} MatchersMeaning(matchers: seq<Matcher>)
    ensures forall m :: m in SanitizeMatchers(matchers) <==>
      exists raw :: raw in matchers && SanitizeMatcher(raw) == Some(m)
    ensures forall m :: m in SanitizeMatchers(matchers) ==> IsUsable(m)
  {
    if matchers != [] {
      MatchersMeaning(matchers[1..]);
      MatcherMeaning(matchers[0]);
      assert forall raw :: raw in matchers <==> raw == matchers[0] || raw in matchers[1..];
    }
  }

  /** What survives has a normal id, a one-line label and usable matchers, and says that it comes from the overlay. */
  predicate IsSanitized(p: Preset) {
    && IsNormal(p.id) && IsOneLine(p.title) && |p.title| <= LABEL_CHARS
    && p.source == "overlay" && p.matchers != [] && forall i :: 0 <= i < |p.matchers| ==> IsUsable(p.matchers[i])
  }

  lemma {:induction false} SanitizedMeaning(p: Preset)
    ensures SanitizeOverlay(p).Some? ==> IsSanitized(SanitizeOverlay(p).value)
    ensures SanitizeOverlay(p).None? <==>
      NormalizePresetId(p.id).None? || SanitizeLabel(p.title).None? ||
        forall m :: m in p.matchers ==> SanitizeMatcher(m).None?
  {
    NormalizeIsIdempotent(p.id);
    LabelMeaning(p.title);
    MatchersMeaning(p.matchers);
    var kept := SanitizeMatchers(p.matchers);
    if kept != [] {
      assert kept[0] in kept;
    }
    forall i | 0 <= i < |kept| ensures IsUsable(kept[i]) {
      assert kept[i] in kept;
    }
  }

  /** `filter_map(sanitize_overlay_preset)`. */
  function Sanitized(overlay: seq<Preset>): seq<Preset> {
    if overlay == [] then []
    else (match SanitizeOverlay(overlay[0]) case None => [] case Some(p) => [p]) + Sanitized(overlay[1..])
  }

  lemma {:induction false} SanitizedMembers(overlay: seq<Preset>)
    ensures forall p :: p in Sanitized(overlay) <==> exists raw :: raw in overlay && SanitizeOverlay(raw) == Some(p)
    ensures forall p :: p in Sanitized(overlay) ==> IsSanitized(p)
  {
    if overlay != [] {
      SanitizedMembers(overlay[1..]);
      SanitizedMeaning(overlay[0]);
      assert forall raw :: raw in overlay <==> raw == overlay[0] || raw in overlay[1..];
    }
  }

  // ----- the preset list

  function Ids(presets: seq<Preset>): set<string> {
    set p | p in presets :: p.id
  }

  ghost predicate DistinctPresets(presets: seq<Preset>) {
    forall i, j :: 0 <= i < j < |presets| ==> presets[i].id != presets[j].id
  }

  /** The first overlay preset with an id that nothing before it has. */
  ghost predicate FirstWithId(builtIn: seq<Preset>, overlay: seq<Preset>, i: nat) {
    && i < |overlay| && overlay[i].id !in Ids(builtIn)
    && forall j :: 0 <= j < i ==> overlay[j].id != overlay[i].id
  }

  /** The first overlay presets of each new id, in the overlay's order. */
  function Firsts(builtIn: seq<Preset>, overlay: seq<Preset>): seq<Preset> {
    if overlay == [] then []
    else
      var n := |overlay| - 1;
      var before := Firsts(builtIn, overlay[..n]);
      if overlay[n].id in Ids(builtIn) + Ids(overlay[..n]) then before else before + [overlay[n]]
  }

  /** Where they stand in the overlay. */
  function FirstPlaces(builtIn: seq<Preset>, overlay: seq<Preset>): seq<nat> {
    if overlay == [] then []
    else
      var n := |overlay| - 1;
      var before := FirstPlaces(builtIn, overlay[..n]);
      if overlay[n].id in Ids(builtIn) + Ids(overlay[..n]) then before else before + [n]
  }

  /** `places` lists, from left to right, exactly the overlay presets whose id is new there. */
  ghost predicate ListsFirsts(places: seq<nat>, builtIn: seq<Preset>, overlay: seq<Preset>) {
    && (forall k, l :: 0 <= k < l < |places| ==> places[k] < places[l])
    && (forall i: nat :: FirstWithId(builtIn, overlay, i) <==> i in places)
  }

  lemma LastIsFirst(builtIn: seq<Preset>, overlay: seq<Preset>)
    requires overlay != []
    ensures var n := |overlay| - 1;
      FirstWithId(builtIn, overlay, n) <==> overlay[n].id !in Ids(builtIn) + Ids(overlay[..n])
  {
    var n := |overlay| - 1;
    forall j | 0 <= j < n ensures overlay[j].id in Ids(overlay[..n]) {
      assert overlay[..n][j] == overlay[j];
    }
  }

  lemma FirstsOfPrefix(builtIn: seq<Preset>, overlay: seq<Preset>, i: nat)
    requires overlay != [] && i < |overlay| - 1
    ensures FirstWithId(builtIn, overlay, i) <==> FirstWithId(builtIn, overlay[..|overlay| - 1], i)
  {
    assert forall j :: 0 <= j <= i ==> overlay[..|overlay| - 1][j] == overlay[j];
  }

  lemma {:induction false} FirstsMeaning(builtIn: seq<Preset>, overlay: seq<Preset>)
    ensures var places, firsts := FirstPlaces(builtIn, overlay), Firsts(builtIn, overlay);
      && |firsts| == |places| && ListsFirsts(places, builtIn, overlay)
      && forall k :: 0 <= k < |places| ==> places[k] < |overlay| && firsts[k] == overlay[places[k]]
  {
    if overlay != [] {
      var n := |overlay| - 1;
      FirstsMeaning(builtIn, overlay[..n]);
      LastIsFirst(builtIn, overlay);
      var before, places := FirstPlaces(builtIn, overlay[..n]), FirstPlaces(builtIn, overlay);
      forall i: nat ensures FirstWithId(builtIn, overlay, i) <==> i in places {
        if i < n {
          FirstsOfPrefix(builtIn, overlay, i);
        }
        assert i in places <==> i in before || (i == n && |places| > |before|);
      }
    }
  }

  /** Each new id has one preset among them, and a preset of a known id adds none. */
  lemma FirstsAreDistinct(builtIn: seq<Preset>, overlay: seq<Preset>)
    requires DistinctPresets(builtIn)
    ensures DistinctPresets(builtIn + Firsts(builtIn, overlay))
  {
    var places, firsts := FirstPlaces(builtIn, overlay), Firsts(builtIn, overlay);
    var all := builtIn + firsts;
    FirstsMeaning(builtIn, overlay);
    forall i, j | 0 <= i < j < |all| ensures all[i].id != all[j].id {
      if j >= |builtIn| {
        var b := places[j - |builtIn|];
        assert b in places && FirstWithId(builtIn, overlay, b);
        if i < |builtIn| {
          assert all[i] in builtIn;
        } else {
          assert places[i - |builtIn|] < b;
        }
      }
    }
  }

  /** `overlay` holds the presets that survived sanitising. */
  method AppendOverlay(builtIn: seq<Preset>, overlay: seq<Preset>) returns (presets: seq<Preset>)
    ensures presets == builtIn + Firsts(builtIn, overlay)
  {
    presets := builtIn;
    var seen := Ids(builtIn);
    for i := 0 to |overlay|
      invariant presets == builtIn + Firsts(builtIn, overlay[..i])
      invariant seen == Ids(builtIn) + Ids(overlay[..i])
    {
      var p := overlay[i];
      assert overlay[..i + 1][..i] == overlay[..i];
      assert overlay[..i + 1] == overlay[..i] + [p];
      if p.id !in seen {
        seen := seen + {p.id};
        presets := presets + [p];
      }
    }
    assert overlay[..|overlay|] == overlay;
  }

  lemma IdsAppend(a: seq<Preset>, b: seq<Preset>)
    ensures Ids(a + b) == Ids(a) + Ids(b)
  {
  }

  /** Every id of the overlay is in the list in the end. */
  lemma {:induction false} EveryIdIsListed(builtIn: seq<Preset>, overlay: seq<Preset>)
    ensures Ids(builtIn + Firsts(builtIn, overlay)) == Ids(builtIn) + Ids(overlay)
  {
    IdsAppend(builtIn, Firsts(builtIn, overlay));
    if overlay != [] {
      var front, last := overlay[..|overlay| - 1], overlay[|overlay| - 1];
      EveryIdIsListed(builtIn, front);
      IdsAppend(builtIn, Firsts(builtIn, front));
      IdsAppend(Firsts(builtIn, front), [last]);
      IdsAppend(front, [last]);
      LastIsAppended(overlay);
    }
  }

  /** Built-in presets first, then the overlay's, cleaned up and in their order, where their id is new. */
  method BuildPresets(builtIn: seq<Preset>, overlay: seq<Preset>) returns (presets: seq<Preset>)
    ensures presets == builtIn + Firsts(builtIn, Sanitized(overlay))
    ensures DistinctPresets(builtIn) ==> DistinctPresets(presets)
    ensures forall p :: p in presets[|builtIn|..] ==> IsSanitized(p)
    ensures forall raw :: raw in overlay && SanitizeOverlay(raw).Some? ==> SanitizeOverlay(raw).value.id in Ids(presets)
  {
    var kept := Sanitized(overlay);
    presets := AppendOverlay(builtIn, kept);
    if DistinctPresets(builtIn) {
      FirstsAreDistinct(builtIn, kept);
    }
    AddedAreSanitized(builtIn, overlay);
    assert presets[|builtIn|..] == Firsts(builtIn, kept);
    SanitizedMembers(overlay);
    forall raw | raw in overlay && SanitizeOverlay(raw).Some? ensures SanitizeOverlay(raw).value.id in Ids(presets) {
      assert SanitizeOverlay(raw).value in kept;
      EveryIdIsListed(builtIn, kept);
    }
  }

  lemma AddedAreSanitized(builtIn: seq<Preset>, overlay: seq<Preset>)
    ensures forall p :: p in Firsts(builtIn, Sanitized(overlay)) ==> IsSanitized(p)
  {
    var kept := Sanitized(overlay);
    SanitizedMembers(overlay);
    FirstsMeaning(builtIn, kept);
    forall p | p in Firsts(builtIn, kept) ensures IsSanitized(p) {
      assert p in kept;
    }
  }
}
