/** What cleaning makes of an overlay preset, character by character and matcher by matcher. */
module PresetMeaning {
  import opened Wrappers
  import opened Text
  import opened Seqs
  import opened FleetPresets

  // ----- ids

  /** What becomes of one character: letters are lowered, and whatever an id cannot hold is a dash. */
  function IdCharOf(c: char): char {
    if 'A' <= c <= 'Z' then (c as int + 32) as char
    else if 'a' <= c <= 'z' || '0' <= c <= '9' || c == '_' then c
    else '-'
  }

  /** `id` is the stretch of `raw` from `a` to `b`, and around it there are only dashes. */
  predicate IsCoreOf(id: string, raw: string, a: int, b: int) {
    && 0 <= a <= b <= |raw| && |id| == b - a
    && (forall k :: 0 <= k < |id| ==> id[k] == IdCharOf(raw[a + k]))
    && (forall k :: 0 <= k < a ==> IdCharOf(raw[k]) == '-')
    && (forall k :: b <= k < |raw| ==> IdCharOf(raw[k]) == '-')
  }

  lemma {:induction false} DashedAt(s: string, k: nat)
    requires k < |s|
    ensures Dashed(AsciiLower(s))[k] == IdCharOf(s[k])
  {
    if k > 0 {
      assert AsciiLower(s)[1..] == AsciiLower(s[1..]);
      DashedAt(s[1..], k - 1);
    }
  }

  lemma {:induction false} StartDashes(s: string) returns (n: nat)
    ensures n <= |s| && TrimDashesStart(s) == s[n..] && forall k :: 0 <= k < n ==> s[k] == '-'
  {
    n := 0;
    if s != [] && s[0] == '-' {
      var m := StartDashes(s[1..]);
      n := m + 1;
      assert s[1..][m..] == s[n..];
      forall k | 0 <= k < n ensures s[k] == '-' {
        if k > 0 {
          assert s[1..][k - 1] == '-';
        }
      }
    } else {
      assert s[0..] == s;
    }
  }

  lemma {:induction false} EndDashes(s: string) returns (n: nat)
    ensures n <= |s| && TrimDashesEnd(s) == s[..n] && forall k :: n <= k < |s| ==> s[k] == '-'
  {
    n := |s|;
    if s != [] && s[|s| - 1] == '-' {
      n := EndDashes(s[..|s| - 1]);
      assert s[..|s| - 1][..n] == s[..n];
    } else {
      assert s[..|s|] == s;
    }
  }

  lemma {:induction false} StartBlanks(s: string) returns (n: nat)
    ensures n <= |s| && TrimStart(s) == s[n..] && forall k :: 0 <= k < n ==> IsWhitespace(s[k])
  {
    n := 0;
    if s != [] && IsWhitespace(s[0]) {
      var m := StartBlanks(s[1..]);
      n := m + 1;
      assert s[1..][m..] == s[n..];
      forall k | 0 <= k < n ensures IsWhitespace(s[k]) {
        if k > 0 {
          assert IsWhitespace(s[1..][k - 1]);
        }
      }
    } else {
      assert s[0..] == s;
    }
  }

  lemma {:induction false} EndBlanks(s: string) returns (n: nat)
    ensures n <= |s| && TrimEnd(s) == s[..n] && forall k :: n <= k < |s| ==> IsWhitespace(s[k])
  {
    n := |s|;
    if s != [] && IsWhitespace(s[|s| - 1]) {
      n := EndBlanks(s[..|s| - 1]);
      assert s[..|s| - 1][..n] == s[..n];
    } else {
      assert s[..|s|] == s;
    }
  }

  /** Trimming takes away white space only. */
  lemma {:induction false} TrimmedPart(s: string) returns (a: nat, b: nat)
    ensures a <= b <= |s| && Trim(s) == s[a..b]
    ensures forall k :: 0 <= k < a || b <= k < |s| ==> IsWhitespace(s[k])
  {
    a := StartBlanks(s);
    var n := EndBlanks(s[a..]);
    b := a + n;
    assert s[a..][..n] == s[a..b];
    forall k | b <= k < |s| ensures IsWhitespace(s[k]) {
      assert IsWhitespace(s[a..][k - a]);
    }
  }

  lemma {:induction false} CoreOfTrimmed(t: string) returns (a: nat, b: nat)
    ensures IsCoreOf(TrimDashesEnd(TrimDashesStart(Dashed(AsciiLower(t)))), t, a, b)
  {
    var d := Dashed(AsciiLower(t));
    a := StartDashes(d);
    var n := EndDashes(d[a..]);
    b := a + n;
    forall k | 0 <= k < |t| ensures d[k] == IdCharOf(t[k]) {
      DashedAt(t, k);
    }
    assert d[a..][..n] == d[a..b];
    forall k | b <= k < |t| ensures IdCharOf(t[k]) == '-' {
      assert d[a..][k - a] == '-';
    }
  }

  /**
   * A normalised id is the raw one with its letters lowered and everything else that ids cannot hold turned into
   * dashes, without the dashes at its ends. There is none exactly where nothing but dashes would be left.
   */
  lemma {:induction false} NormalizeMeaning(raw: string)
    ensures NormalizePresetId(raw).None? <==> forall k :: 0 <= k < |raw| ==> IdCharOf(raw[k]) == '-'
    ensures NormalizePresetId(raw).Some? ==>
      var id := NormalizePresetId(raw).value;
      id[0] != '-' && id[|id| - 1] != '-' && exists a, b :: IsCoreOf(id, raw, a, b)
  {
    NormalizedIsNormal(raw);
    var a, b := TrimmedPart(raw);
    var t := Trim(raw);
    var c, d := CoreOfTrimmed(t);
    var id := TrimDashesEnd(TrimDashesStart(Dashed(AsciiLower(t))));
    forall k | 0 <= k < |raw| && (k < a + c || a + d <= k) ensures IdCharOf(raw[k]) == '-' {
      if a <= k < b {
        assert t[k - a] == raw[k];
      } else {
        assert IsWhitespace(raw[k]);
      }
    }
    assert IsCoreOf(id, raw, a + c, a + d);
    if id != [] {
      assert IdCharOf(raw[a + c]) != '-';
    }
  }

  // ----- matchers

  /** It has a value to match against, or needs none. */
  predicate HasText(m: Matcher) {
    m.HasValue() ==> Trim(m.key) != ""
  }

  function Trimmed(m: Matcher): Matcher {
    if m.HasValue() then m.(key := Trim(m.key)) else m
  }

  /** The matchers with text are kept in their order, trimmed and otherwise as they are; the others are dropped. */
  lemma {:induction false} MatchersAreTrimmed(matchers: seq<Matcher>)
    ensures SanitizeMatchers(matchers) == Map(Trimmed, Filter(HasText, matchers))
  {
    if matchers != [] {
      MatchersAreTrimmed(matchers[1..]);
      OneMatcher(matchers[0]);
    }
  }

  lemma OneMatcher(m: Matcher)
    ensures SanitizeMatcher(m) == if HasText(m) then Some(Trimmed(m)) else None
  {
  }

  /** What survives of a preset is its own id, label and matchers, cleaned up. */
  lemma {:induction false} SanitizedIsCleaned(p: Preset)
    ensures SanitizeOverlay(p) ==
      var id, title, kept := NormalizePresetId(p.id), SanitizeLabel(p.title), Filter(HasText, p.matchers);
      if id == None || title == None || kept == [] then None
      else Some(Preset(id.value, title.value, "overlay", Map(Trimmed, kept)))
  {
    MatchersAreTrimmed(p.matchers);
  }

  // ----- labels

  predicate IsWhite(s: string) {
    forall i :: 0 <= i < |s| ==> IsWhitespace(s[i])
  }

  predicate HasNoWhite(s: string) {
    forall i :: 0 <= i < |s| ==> !IsWhitespace(s[i])
  }

  lemma {:induction false} WordLengthOf(w: string, rest: string)
    requires HasNoWhite(w) && (rest == "" || IsWhitespace(rest[0]))
    ensures WordLength(w + rest) == |w|
  {
    var s := w + rest;
    if |w| < |s| {
      assert s[|w|] == rest[0];
    }
    assert forall i :: 0 <= i < |w| ==> s[i] == w[i];
  }

  lemma {:induction false} WordsSkip(gap: string, s: string)
    requires IsWhite(gap)
    ensures Words(gap + s) == Words(s)
    decreases |gap|
  {
    if gap == "" {
      assert gap + s == s;
    } else {
      assert (gap + s)[0] == gap[0] && (gap + s)[1..] == gap[1..] + s;
      WordsSkip(gap[1..], s);
      SameTrimStart(gap + s, gap[1..] + s);
    }
  }

  lemma SameTrimStart(s: string, t: string)
    requires TrimStart(s) == TrimStart(t)
    ensures Words(s) == Words(t)
  {
  }

  /** A word and what is behind it. */
  lemma {:induction false} WordsFirst(w: string, rest: string)
    requires w != "" && HasNoWhite(w) && (rest == "" || IsWhitespace(rest[0]))
    ensures Words(w + rest) == [w] + Words(rest)
  {
    var s := w + rest;
    WordLengthOf(w, rest);
    assert s[0] == w[0];
    assert TrimStart(s) == s;
    assert s[..|w|] == w && s[|w|..] == rest;
  }

  /** White space sets words apart, and nothing else does. */
  lemma {:induction false} WordsSplit(a: string, gap: string, b: string)
    requires gap != "" && IsWhite(gap)
    ensures Words(a + gap + b) == Words(a) + Words(b)
    decreases |a|
  {
    if a == "" {
      assert a + gap + b == gap + b;
      WordsSkip(gap, b);
    } else if IsWhitespace(a[0]) {
      var rest := a[1..];
      assert a == [a[0]] + rest && a + gap + b == [a[0]] + (rest + gap + b);
      WordsSkip([a[0]], rest + gap + b);
      WordsSkip([a[0]], rest);
      WordsSplit(rest, gap, b);
    } else {
      var n := WordLength(a);
      var w, rest := a[..n], a[n..];
      assert a == w + rest && a + gap + b == w + (rest + gap + b);
      assert rest + gap + b != "" && (rest + gap + b)[0] == if rest == "" then gap[0] else rest[0];
      WordsFirst(w, rest + gap + b);
      WordsFirst(w, rest);
      WordsSplit(rest, gap, b);
    }
  }

  lemma {:induction false} JoinAppend(a: seq<string>, b: seq<string>)
    ensures JoinWords(a + b) == if a == [] then JoinWords(b) else if b == [] then JoinWords(a)
                                else JoinWords(a) + " " + JoinWords(b)
  {
    if a == [] {
      assert a + b == b;
    } else if b == [] {
      assert a + b == a;
    } else {
      assert (a + b)[1..] == a[1..] + b;
      JoinAppend(a[1..], b);
      if |a| > 1 {
        var first, rest, last := a[0] + " ", JoinWords(a[1..]), " " + JoinWords(b);
        assert first + (rest + last) == (first + rest) + last;
      }
    }
  }

  lemma {:induction false} NoLineNoWords(raw: string)
    ensures OneLine(raw) == "" <==> Words(Filter(IsPrintable, raw)) == []
  {
    var words := Words(Filter(IsPrintable, raw));
    FilterMembers(IsPrintable, raw);
    WordsAreWords(Filter(IsPrintable, raw));
    if words != [] {
      JoinedIsOneLine(words);
    }
  }

  /**
   * Two texts with white space between them become their lines with one blank between them. Control characters are not
   * white space here: they are taken out first, a line break too.
   */
  lemma {:induction false} LineOfParts(a: string, gap: string, b: string)
    requires Filter(IsPrintable, gap) != "" && IsWhite(Filter(IsPrintable, gap))
    ensures OneLine(a + gap + b) ==
      if OneLine(a) == "" then OneLine(b)
      else if OneLine(b) == "" then OneLine(a)
      else OneLine(a) + " " + OneLine(b)
  {
    var p, q := Filter(IsPrintable, a), Filter(IsPrintable, b);
    FilterAppend(IsPrintable, a, gap);
    FilterAppend(IsPrintable, a + gap, b);
    WordsSplit(p, Filter(IsPrintable, gap), q);
    JoinAppend(Words(p), Words(q));
    NoLineNoWords(a);
    NoLineNoWords(b);
  }

  /** A text without white space becomes itself without its control characters. */
  lemma {:induction false} LineOfWord(raw: string)
    requires HasNoWhite(Filter(IsPrintable, raw))
    ensures OneLine(raw) == Filter(IsPrintable, raw)
  {
    var w := Filter(IsPrintable, raw);
    if w != "" {
      WordsFirst(w, "");
      assert w + "" == w;
    }
  }
}
