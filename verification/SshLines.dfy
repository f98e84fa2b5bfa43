/** A whole line of an SSH config, written in any way the importer accepts, means its keyword and its arguments. */
module SshLines {
  import opened Wrappers
  import opened Text
  import opened Seqs
  import opened SshTokens
  import opened SshPrinting

  predicate IsBareKeyword(keyword: string) {
    keyword != []
    && forall i :: 0 <= i < |keyword| ==> !IsWhitespace(keyword[i]) && keyword[i] !in {'=', '"', '\'', '\\', '#'}
  }

  // ----- white space around a text

  predicate IsWhite(s: string) {
    forall i :: 0 <= i < |s| ==> IsWhitespace(s[i])
  }

  /** It neither begins nor ends with white space. */
  predicate IsTight(s: string) {
    s != "" && !IsWhitespace(s[0]) && !IsWhitespace(s[|s| - 1])
  }

  lemma {:induction false} TrimStartSkips(gap: string, s: string)
    requires IsWhite(gap)
    ensures TrimStart(gap + s) == TrimStart(s)
  {
    if gap == "" {
      assert gap + s == s;
    } else {
      assert (gap + s)[1..] == gap[1..] + s;
      TrimStartSkips(gap[1..], s);
    }
  }

  lemma {:induction false} TrimEndSkips(s: string, gap: string)
    requires IsWhite(gap)
    ensures TrimEnd(s + gap) == TrimEnd(s)
  {
    if gap == "" {
      assert s + gap == s;
    } else {
      assert (s + gap)[..|s + gap| - 1] == s + gap[..|gap| - 1];
      TrimEndSkips(s, gap[..|gap| - 1]);
    }
  }

  lemma TrimAround(lead: string, s: string, tail: string)
    requires IsWhite(lead) && IsWhite(tail) && IsTight(s)
    ensures Trim(lead + s + tail) == s
  {
    assert lead + s + tail == lead + (s + tail);
    TrimStartSkips(lead, s + tail);
    assert (s + tail)[0] == s[0];
    TrimEndSkips(s, tail);
  }

  lemma BlankIsWhite(s: string)
    requires IsBlank(s)
    ensures IsWhite(s)
  {
  }

  // ----- keyword and arguments

  /** Between keyword and arguments stands white space, or one `=` with or without white space around it. */
  datatype Separator = Gap(blank: string) | Equals(before: string, after: string)

  /** Behind mere white space an `=` would count as the separator. */
  predicate Separates(sep: Separator, body: string) {
    match sep
    case Gap(blank) => blank != "" && IsBlank(blank) && (body == "" || body[0] != '=')
    case Equals(before, after) => IsBlank(before) && IsBlank(after)
  }

  function ShowSeparator(sep: Separator): string {
    match sep
    case Gap(blank) => blank
    case Equals(before, after) => before + ("=" + after)
  }

  lemma KeywordIsTight(keyword: string)
    requires IsBareKeyword(keyword)
    ensures IsTight(keyword) && Trim(keyword) == keyword
    ensures forall i :: 0 <= i < |keyword| ==> !IsAsciiWhitespace(keyword[i]) && !IsEquals(keyword[i])
  {
    TrimKeeps(keyword);
  }

  /** Nothing in the keyword ends it; what comes right behind it does. */
  lemma KeywordEnds(keyword: string, rest: string)
    requires IsBareKeyword(keyword) && rest != ""
    ensures IsAsciiWhitespace(rest[0]) ==>
      && Find(IsAsciiWhitespace, keyword + rest) == Some(|keyword|)
      && var eq := Find(IsEquals, keyword + rest); eq.Some? ==> eq.value > |keyword|
    ensures rest[0] == '=' ==>
      && Find(IsEquals, keyword + rest) == Some(|keyword|)
      && var ws := Find(IsAsciiWhitespace, keyword + rest); ws.Some? ==> ws.value > |keyword|
  {
    KeywordIsTight(keyword);
    var line := keyword + rest;
    assert line[|keyword|] == rest[0];
    assert forall i :: 0 <= i < |keyword| ==> line[i] == keyword[i];
  }

  lemma SplitsAtGap(keyword: string, blank: string, body: string)
    requires IsBareKeyword(keyword) && Separates(Gap(blank), body) && IsTight(body)
    ensures SplitDirective(keyword + (blank + body)) == Some((keyword, body))
  {
    var rest := blank + body;
    var line := keyword + rest;
    KeywordIsTight(keyword);
    TrimKeeps(line);
    TrimKeeps(body);
    KeywordEnds(keyword, rest);
    assert line[..|keyword|] == keyword && line[|keyword|..] == rest;
    BlankIsWhite(blank);
    TrimStartSkips(blank, body);
    assert TrimStart(rest) == body;
  }

  lemma SplitsAtEquals(keyword: string, after: string, body: string)
    requires IsBareKeyword(keyword) && IsBlank(after) && IsTight(body)
    ensures SplitDirective(keyword + ("=" + (after + body))) == Some((keyword, body))
  {
    var rest := "=" + (after + body);
    var line := keyword + rest;
    KeywordIsTight(keyword);
    TrimKeeps(line);
    KeywordEnds(keyword, rest);
    assert line[..|keyword|] == keyword && line[|keyword| + 1..] == after + body;
    BlankIsWhite(after);
    TrimAround(after, body, "");
    assert after + body + "" == after + body;
  }

  lemma SplitsAtGapAndEquals(keyword: string, before: string, after: string, body: string)
    requires IsBareKeyword(keyword) && before != "" && IsBlank(before) && IsBlank(after) && IsTight(body)
    ensures SplitDirective(keyword + (before + ("=" + (after + body)))) == Some((keyword, body))
  {
    var value := after + body;
    var rest := before + ("=" + value);
    var line := keyword + rest;
    KeywordIsTight(keyword);
    TrimKeeps(line);
    KeywordEnds(keyword, rest);
    assert line[..|keyword|] == keyword && line[|keyword|..] == rest;
    BlankIsWhite(before);
    TrimStartSkips(before, "=" + value);
    assert TrimStart(rest) == "=" + value && ("=" + value)[1..] == value;
    BlankIsWhite(after);
    TrimStartSkips(after, body);
    assert TrimStart(value) == body;
    TrimKeeps(body);
  }

  /** The keyword is split from the arguments, whatever stands between them. */
  lemma SplitsAtSeparator(keyword: string, sep: Separator, body: string)
    requires IsBareKeyword(keyword) && Separates(sep, body) && IsTight(body)
    ensures SplitDirective(keyword + (ShowSeparator(sep) + body)) == Some((keyword, body))
  {
    match sep
    case Gap(blank) => SplitsAtGap(keyword, blank, body);
    case Equals(before, after) =>
      AppendAssociates("=", after, body);
      if before == "" {
        SplitsAtEquals(keyword, after, body);
        assert ShowSeparator(sep) == "=" + after;
      } else {
        SplitsAtGapAndEquals(keyword, before, after, body);
        AppendAssociates(before, "=" + after, body);
      }
  }

  // ----- a whole line

  datatype Line = Line(
    lead: string, keyword: string, sep: Separator, first: Word, items: seq<Item>, tail: string, comment: string)

  function Body(l: Line): string {
    ShowWord(l.first) + ShowItems(l.items)
  }

  /** White space around a directive that is itself free of comments, and perhaps a comment behind it. */
  predicate IsLine(l: Line) {
    && IsBareKeyword(l.keyword)
    && IsWord(l.first) && AreItems(l.items) && HasNoHash(l.first) && NoneHasHash(l.items)
    && IsTight(Body(l)) && Separates(l.sep, Body(l))
    && IsBlank(l.lead) && IsBlank(l.tail) && IsComment(l.comment)
  }

  predicate IsComment(s: string) {
    s == "" || s[0] == '#'
  }

  function Directive(l: Line): string {
    l.keyword + (ShowSeparator(l.sep) + Body(l))
  }

  function ShowLine(l: Line): string {
    l.lead + Directive(l) + l.tail + l.comment
  }

  lemma SeparatorIsClosed(sep: Separator, body: string)
    requires Separates(sep, body)
    ensures IsClosed(ShowSeparator(sep))
  {
    OrdinaryHasNoComment(ShowSeparator(sep));
  }

  lemma DirectiveIsClosed(l: Line)
    requires IsLine(l)
    ensures IsClosed(Directive(l))
  {
    OrdinaryHasNoComment(l.keyword);
    SeparatorIsClosed(l.sep, Body(l));
    WordHasNoComment(l.first);
    ItemsAreClosed(l.items);
    ClosedAppend(ShowWord(l.first), ShowItems(l.items));
    ClosedAppend(ShowSeparator(l.sep), Body(l));
    ClosedAppend(l.keyword, ShowSeparator(l.sep) + Body(l));
  }

  /** The comment is all that is stripped. */
  lemma StripsComment(lead: string, directive: string, tail: string, comment: string)
    requires IsBlank(lead) && IsBlank(tail) && IsClosed(directive) && IsComment(comment)
    ensures StripComment(lead + directive + tail + comment) == lead + directive + tail
  {
    BlankIsOrdinary(lead);
    BlankIsOrdinary(tail);
    OrdinaryHasNoComment(lead);
    OrdinaryHasNoComment(tail);
    ClosedAppend(lead, directive);
    ClosedAppend(lead + directive, tail);
    StripKeepsCommentFree(PLAIN, lead + directive + tail, comment);
  }

  /**
   * However a directive is spaced, quoted and escaped, and whether or not a comment follows it, the importer reads its
   * keyword and its arguments.
   */
  lemma LineReadsBack(l: Line)
    requires IsLine(l)
    ensures ParseLine(ShowLine(l)) == Some((l.keyword, [Argument(l.first)] + ArgumentsOf(l.items)))
  {
    DirectiveIsClosed(l);
    StripsComment(l.lead, Directive(l), l.tail, l.comment);
    BlankIsWhite(l.lead);
    BlankIsWhite(l.tail);
    KeywordIsTight(l.keyword);
    assert Directive(l)[0] == l.keyword[0] && Directive(l)[|Directive(l)| - 1] == Body(l)[|Body(l)| - 1];
    TrimAround(l.lead, Directive(l), l.tail);
    SplitsAtSeparator(l.keyword, l.sep, Body(l));
    ArgumentsReadBack(l.first, l.items, "");
    assert ShowArguments(l.first, l.items, "") == Body(l);
  }

  /** A keyword may stand alone. */
  lemma KeywordReadsBack(lead: string, keyword: string, tail: string, comment: string)
    requires IsBareKeyword(keyword) && IsBlank(lead) && IsBlank(tail) && IsComment(comment)
    ensures ParseLine(lead + keyword + tail + comment) == Some((keyword, []))
  {
    OrdinaryHasNoComment(keyword);
    StripsComment(lead, keyword, tail, comment);
    BlankIsWhite(lead);
    BlankIsWhite(tail);
    KeywordIsTight(keyword);
    TrimAround(lead, keyword, tail);
    assert Find(IsAsciiWhitespace, keyword).None? && Find(IsEquals, keyword).None?;
    assert TokenRun(NO_TOKENS, "") == NO_TOKENS;
  }

  /** White space and comments say nothing. */
  lemma NothingToRead(lead: string, comment: string)
    requires IsBlank(lead) && IsComment(comment)
    ensures ParseLine(lead + comment) == None
  {
    assert lead + "" + "" + comment == lead + comment && lead + "" + "" == lead + "";
    StripsComment(lead, "", "", comment);
    BlankIsWhite(lead);
    TrimStartSkips(lead, "");
  }

  // ----- one way to write them all: double quotes

  function InQuotes(arg: string): seq<Written> {
    if arg == "" then []
    else InQuotes(arg[..|arg| - 1]) + [Written(arg[|arg| - 1], arg[|arg| - 1] == '"' || arg[|arg| - 1] == '\\')]
  }

  lemma {:induction false} InQuotesMeans(arg: string)
    ensures WellWritten(Quoted('"', InQuotes(arg))) && Letters(InQuotes(arg)) == arg
  {
    if arg != "" {
      InQuotesMeans(arg[..|arg| - 1]);
      LastIsAppended(arg);
    }
  }

  function QuotedWord(arg: string): Word {
    [Quoted('"', InQuotes(arg))]
  }

  function QuotedItem(arg: string): Item {
    Item(" ", QuotedWord(arg))
  }

  function QuotedItems(args: seq<string>): seq<Item> {
    if args == [] then [] else QuotedItems(args[..|args| - 1]) + [QuotedItem(args[|args| - 1])]
  }

  lemma OneItemMore(front: seq<Item>, item: Item)
    ensures ArgumentsOf(front + [item]) == ArgumentsOf(front) + [Argument(item.word)]
    ensures ShowItems(front + [item]) == ShowItems(front) + ShowItem(item)
  {
    assert (front + [item])[..|front|] == front;
  }

  lemma WordOfOne(p: Piece)
    ensures Argument([p]) == Meant(p) && ShowWord([p]) == ShowPiece(p)
  {
    var w := [p];
    assert w[..0] == [];
    assert Argument(w) == "" + Meant(p) && ShowWord(w) == "" + ShowPiece(p);
  }

  lemma QuotedWordIsWord(arg: string)
    ensures var w := QuotedWord(arg); IsWord(w) && HasNoHash(w) && Argument(w) == arg
    ensures var s := ShowWord(QuotedWord(arg)); |s| >= 2 && s[0] == '"' && s[|s| - 1] == '"'
  {
    WordOfOne(Quoted('"', InQuotes(arg)));
    InQuotesMeans(arg);
  }

  lemma QuotedItemIsItem(arg: string)
    ensures IsItem(QuotedItem(arg)) && HasNoHash(QuotedItem(arg).word)
  {
    QuotedWordIsWord(arg);
  }

  lemma {:induction false} QuotedItemsAreItems(args: seq<string>)
    ensures AreItems(QuotedItems(args)) && NoneHasHash(QuotedItems(args))
  {
    if args != [] {
      QuotedItemsAreItems(args[..|args| - 1]);
      QuotedItemIsItem(args[|args| - 1]);
    }
  }

  lemma {:induction false} QuotedItemsMean(args: seq<string>)
    ensures ArgumentsOf(QuotedItems(args)) == args
  {
    if args != [] {
      var front, last := args[..|args| - 1], args[|args| - 1];
      QuotedItemsMean(front);
      QuotedWordIsWord(last);
      OneItemMore(QuotedItems(front), QuotedItem(last));
      LastIsAppended(args);
    }
  }

  lemma QuotedItemsEnd(args: seq<string>)
    requires args != []
    ensures var s := ShowItems(QuotedItems(args)); s != "" && s[|s| - 1] == '"'
  {
    var front, last := args[..|args| - 1], args[|args| - 1];
    QuotedWordIsWord(last);
    OneItemMore(QuotedItems(front), QuotedItem(last));
  }

  function QuotedLine(keyword: string, args: seq<string>, tail: string, comment: string): Line
    requires args != []
  {
    Line("", keyword, Gap(" "), QuotedWord(args[0]), QuotedItems(args[1..]), tail, comment)
  }

  function PrintDirective(keyword: string, args: seq<string>): string {
    if args == [] then keyword else Directive(QuotedLine(keyword, args, "", ""))
  }

  lemma QuotesAround(a: string, b: string)
    requires a != "" && a[0] == '"' && a[|a| - 1] == '"' && (b != "" ==> b[|b| - 1] == '"')
    ensures IsTight(a + b) && (a + b)[0] == '"'
  {
  }

  lemma QuotedBodyIsTight(first: string, args: seq<string>)
    ensures var body := ShowWord(QuotedWord(first)) + ShowItems(QuotedItems(args)); IsTight(body) && body[0] == '"'
  {
    QuotedWordIsWord(first);
    if args != [] {
      QuotedItemsEnd(args);
    }
    QuotesAround(ShowWord(QuotedWord(first)), ShowItems(QuotedItems(args)));
  }

  lemma QuotedLineIsLine(keyword: string, args: seq<string>, tail: string, comment: string)
    requires IsBareKeyword(keyword) && args != [] && IsBlank(tail) && IsComment(comment)
    ensures IsLine(QuotedLine(keyword, args, tail, comment))
  {
    QuotedWordIsWord(args[0]);
    QuotedItemsAreItems(args[1..]);
    QuotedBodyIsTight(args[0], args[1..]);
  }

  /** Quoting round trip: a printed directive is read back as its keyword and its arguments, whatever they contain. */
  lemma QuotingRoundTrip(keyword: string, args: seq<string>)
    requires IsBareKeyword(keyword)
    ensures ParseLine(PrintDirective(keyword, args)) == Some((keyword, args))
  {
    CommentedRoundTrip(keyword, args, "", "");
    assert PrintDirective(keyword, args) + "" + "" == PrintDirective(keyword, args);
  }

  /** And so is one with white space and a comment behind it. */
  lemma CommentedRoundTrip(keyword: string, args: seq<string>, tail: string, comment: string)
    requires IsBareKeyword(keyword) && IsBlank(tail) && IsComment(comment)
    ensures ParseLine(PrintDirective(keyword, args) + tail + comment) == Some((keyword, args))
  {
    if args == [] {
      KeywordReadsBack("", keyword, tail, comment);
      assert "" + keyword + tail + comment == keyword + tail + comment;
    } else {
      QuotedReadsBack(keyword, args, tail, comment);
    }
  }

  lemma ShownPlainly(l: Line)
    requires l.lead == ""
    ensures ShowLine(l) == Directive(l) + l.tail + l.comment
  {
    assert "" + Directive(l) == Directive(l);
  }

  lemma QuotedReadsBack(keyword: string, args: seq<string>, tail: string, comment: string)
    requires IsBareKeyword(keyword) && IsBlank(tail) && IsComment(comment) && args != []
    ensures ParseLine(PrintDirective(keyword, args) + tail + comment) == Some((keyword, args))
  {
    var l := QuotedLine(keyword, args, tail, comment);
    QuotedLineIsLine(keyword, args, tail, comment);
    LineReadsBack(l);
    QuotedLineMeans(args);
    ShownPlainly(l);
  }

  lemma HeadAndTail(head: string, tail: seq<string>, args: seq<string>)
    requires args != [] && head == args[0] && tail == args[1..]
    ensures [head] + tail == args
  {
  }

  lemma QuotedLineMeans(args: seq<string>)
    requires args != []
    ensures [Argument(QuotedWord(args[0]))] + ArgumentsOf(QuotedItems(args[1..])) == args
  {
    QuotedWordIsWord(args[0]);
    QuotedItemsMean(args[1..]);
    HeadAndTail(Argument(QuotedWord(args[0])), ArgumentsOf(QuotedItems(args[1..])), args);
  }
}
