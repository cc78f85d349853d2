/**
  The unit-test vectors of src/elements/title.rs, replayed against the model.

  The combinators `line`, `one_word` and `blank_lines_count` are not part of
  this model; `Sample()` is a small stand-in with the behaviour their names
  describe, used only here. It recognises no planning line and no drawer,
  which none of the headline test vectors has.
 */
module HeadlineExamples {
  import opened Wrappers
  import opened Text
  import opened Combinators
  import opened Headline

  /** Up to the first newline, which is consumed with it. */
  function SampleLine(s: string): Option<(string, string)> {
    match FirstIndex(s, '\n')
    case None => Some(([], s))
    case Some(i) => Some((s[i + 1..], s[..i]))
  }

  /** The leading run of non-whitespace bytes, when it is not empty. */
  function SampleWord(s: string): Option<(string, string)> {
    var n := TakeWhile(s, NotWhitespace);
    if n == 0 then None else Some((s[n..], s[..n]))
  }

  /** Lines made only of spaces and tabs, each ended by a newline. */
  function SampleBlankLines(s: string): (r: Option<(string, nat)>)
    ensures r.Some? && IsSuffix(r.value.0, s)
    decreases |s|
  {
    var n := TakeWhile(s, IsSpaceOrTab);
    if n < |s| && s[n] == '\n' then
      var rest := SampleBlankLines(s[n + 1..]).value;
      SuffixTransitive(rest.0, s[n + 1..], s);
      Some((rest.0, rest.1 + 1))
    else Some((s, 0))
  }

  function NoPlanning(s: string): Option<(string, Planning)> {
    None
  }

  function NoDrawer(s: string): Option<(string, Drawer)> {
    None
  }

  function Sample(): (c: Collaborators)
    ensures Valid(c)
  {
    var c := Collaborators(SampleLine, SampleWord, SampleBlankLines, NoPlanning, NoDrawer);
    assert LineOk(c.line) by {
      forall s | SampleLine(s).Some? ensures IsSuffix(SampleLine(s).value.0, s) {
        var i := FirstIndex(s, '\n');
        if i.Some? { assert s[|s| - |s[i.value + 1..]|..] == s[i.value + 1..]; }
      }
    }
    assert WordOk(c.oneWord) by {
      forall s | SampleWord(s).Some? ensures s == SampleWord(s).value.1 + SampleWord(s).value.0 {
        var n := TakeWhile(s, NotWhitespace);
        assert s == s[..n] + s[n..];
      }
    }
    assert CountOk(c.blankLinesCount) && PlanningOk(c.planning) && DrawerOk(c.drawer);
    c
  }

  /** The default configuration: `TODO` is the open state, `DONE` the closed one. */
  function DefaultConfig(): Config {
    Config((["TODO"], ["DONE"]))
  }

  /** A configuration with no keyword at all. */
  function NoKeywords(): Config {
    Config(([], []))
  }

  /** A configuration whose only keyword is `TASK`, an open state. */
  function TaskKeyword(): Config {
    Config((["TASK"], []))
  }

  lemma TakeWhileExact(s: string, p: char -> bool, k: nat)
    requires k <= |s| && (forall i :: 0 <= i < k ==> p(s[i])) && (k < |s| ==> !p(s[k]))
    ensures TakeWhile(s, p) == k
  {
    TakeWhileAtLeast(s, p, k);
  }
  /** A trimmed text is its own trimming. */
  lemma TrimTrimmed(s: string)
    requires IsTrimmed(s)
    ensures Trim(s) == s
  {
    if s != [] {
      assert TakeWhile(s, IsWhitespace) == 0;
    }
  }

  lemma Space1Exact(s: string, k: nat)
    requires 0 < k <= |s| && (forall i :: 0 <= i < k ==> IsSpaceOrTab(s[i])) && (k < |s| ==> !IsSpaceOrTab(s[k]))
    ensures Space1(s) == Some(s[k..])
  {
    TakeWhileExact(s, IsSpaceOrTab, k);
  }

  /** `SampleWord` reads a word up to the first whitespace. */
  lemma WordThen(s: string, n: nat)
    requires 0 < n < |s| && (forall i :: 0 <= i < n ==> NotWhitespace(s[i])) && IsWhitespace(s[n])
    ensures SampleWord(s) == Some((s[n..], s[..n]))
  {
    TakeWhileExact(s, NotWhitespace, n);
  }

  /** `Space1` over one space followed by a non-blank byte. */
  lemma OneSpaceThen(s: string)
    requires 1 < |s| && s[0] == ' ' && !IsSpaceOrTab(s[1])
    ensures Space1(s) == Some(s[1..])
  {
    Space1Exact(s, 1);
  }

  /** A blank, a configured keyword, then a blank: the keyword step reads the keyword. */
  lemma KeywordThen(w: string, rest: string, config: Config)
    requires w != [] && forall i :: 0 <= i < |w| ==> NotWhitespace(w[i])
    requires rest != [] && IsWhitespace(rest[0]) && IsTodoKeyword(config, w)
    ensures ParseKeyword(" " + w + rest, config, Sample()) == (rest, Some(w))
  {
    var s := " " + w + rest;
    assert (w + rest)[..|w|] == w && (w + rest)[|w|..] == rest;
    WordThen(w + rest, |w|);
    assert s[..1] == " ";
    KeywordRead(s, config, Sample(), 1, w, rest);
  }

  /** One space, a cookie for `ch`, one space, then a non-blank byte. */
  lemma CookieThen(s: string, ch: char)
    requires 6 < |s| && s[0] == ' ' && s[1] == '[' && s[2] == '#' && s[3] == ch && s[4] == ']' && IsAsciiUpper(ch)
    requires s[5] == ' ' && !IsSpaceOrTab(s[6])
    ensures ParsePriority(s) == (s[6..], Some(ch))
  {
    OneSpaceThen(s);
    var t := s[1..];
    assert t[0] == '[' && t[1] == '#' && t[2] == ch && t[3] == ']';
    assert t[4..] == s[5..];
    OneSpaceThen(s[5..]);
    assert s[5..][1..] == s[6..];
  }

  /** The cookie `[#A]` between two spaces, in front of a non-blank byte. */
  lemma CookieABefore(rest: string)
    requires rest != [] && !IsSpaceOrTab(rest[0])
    ensures ParsePriority(" [#A] " + rest) == (rest, Some('A'))
  {
    var s := " [#A] " + rest;
    assert s[6..] == rest;
    CookieThen(s, 'A');
  }

  /** A blank, then a word that is not a configured keyword: the keyword step consumes nothing. */
  lemma WordNotKeyword(w: string, rest: string, config: Config)
    requires w != [] && forall i :: 0 <= i < |w| ==> NotWhitespace(w[i])
    requires rest != [] && IsWhitespace(rest[0]) && !IsTodoKeyword(config, w)
    ensures ParseKeyword(" " + w + rest, config, Sample()) == (" " + w + rest, None)
  {
    var s := " " + w + rest;
    assert s[1..] == w + rest;
    OneSpaceThen(s);
    assert (w + rest)[..|w|] == w;
    WordThen(w + rest, |w|);
  }

  /** With no keyword configured, the keyword step never matches. */
  lemma EmptyConfigNeverMatches(s: string, c: Collaborators)
    requires Valid(c)
    ensures ParseKeyword(s, NoKeywords(), c) == (s, None)
  {
  }

  /** A blank, then a configured keyword: the keyword step consumes both. */
  lemma WordIsKeyword(s: string, n: nat, config: Config)
    requires 1 < n + 1 < |s| && s[0] == ' ' && IsWhitespace(s[n + 1])
    requires forall i :: 1 <= i <= n ==> NotWhitespace(s[i])
    requires IsTodoKeyword(config, s[1..][..n])
    ensures ParseKeyword(s, config, Sample()) == (s[n + 1..], Some(s[1..][..n]))
  {
    OneSpaceThen(s);
    var w := s[1..];
    WordThen(w, n);
    assert w[n..] == s[n + 1..];
  }

  /** A cookie whose letter is not an upper-case ASCII letter is not a priority. */
  lemma CookieLetterNotUpper(s: string)
    requires 4 < |s| && s[0] == ' ' && s[1] == '[' && !IsAsciiUpper(s[3])
    ensures ParsePriority(s) == (s, None)
  {
    OneSpaceThen(s);
    assert s[1..][2] == s[3];
  }

  /** A cookie followed by neither a space, a tab nor a line ending is not a priority. */
  lemma CookieNotFollowedByBlank(s: string)
    requires 5 < |s| && s[0] == ' ' && s[1] == '['
    requires s[5] != ' ' && s[5] != '\t' && s[5] != '\n' && s[5] != '\r'
    ensures ParsePriority(s) == (s, None)
  {
    OneSpaceThen(s);
    assert s[1..][4..] == s[5..];
  }

  lemma OneLine()
    ensures SampleLine("COMMENT Title :tag:a2%:") == Some(([], "COMMENT Title :tag:a2%:"))
  {
    var s := "COMMENT Title :tag:a2%:";
    assert forall j :: 0 <= j < |s| ==> s[j] != '\n';
  }

  lemma TitleAndTags()
    ensures SplitTags("COMMENT Title :tag:a2%:") == ("COMMENT Title", ":tag:a2%:")
  {
    var s3 := "COMMENT Title :tag:a2%:";
    var k := LastIndexWhere(s3, IsSpaceOrTab);
    assert IsSpaceOrTab(s3[13]);
    assert forall j :: 13 < j < |s3| ==> !IsSpaceOrTab(s3[j]);
    assert k == Some(13);
    assert s3[14..] == ":tag:a2%:";
    assert IsTagLine(":tag:a2%:");
    assert s3[..13] == "COMMENT Title";
    TrimTrimmed("COMMENT Title");
  }

  /** A line that does not end with a colon has no tag group. */
  lemma NoClosingColon(tail: string)
    requires tail != [] && tail[|tail| - 1] != ':'
    ensures SplitTags(tail) == (tail, [])
  {
  }

  /** `Title :tag:a2%`: the last token lacks its closing colon, so it stays in the title. */
  lemma UnclosedGroup()
    ensures SplitTags("Title" + " :tag:a2%") == ("Title" + " :tag:a2%", [])
  {
    NoClosingColon("Title" + " :tag:a2%");
  }

  /** `Title tag:a2%:`: the last token lacks its opening colon, so it stays in the title. */
  lemma UnopenedGroup()
    ensures SplitTags("Title" + " tag:a2%:") == ("Title" + " tag:a2%:", [])
  {
    var s := "Title" + " tag:a2%:";
    assert IsSpaceOrTab(s[5]) && forall j :: 5 < j < |s| ==> !IsSpaceOrTab(s[j]);
    assert LastIndexWhere(s, IsSpaceOrTab) == Some(5);
    assert s[6..][0] == 't';
  }

  lemma TagsJoined()
    ensures ":tag:a2%:" == [':'] + JoinTags(["tag", "a2%"])
  {
    var t: seq<string> := ["tag", "a2%"];
    assert t[1..] == ["a2%"];
    assert JoinTags(["a2%"]) == "a2%:" by {
      assert ["a2%"][1..] == [];
    }
  }

  lemma TagsOfGroup()
    ensures TagList(":tag:a2%:") == ["tag", "a2%"]
  {
    TagsJoined();
    var t: seq<string> := ["tag", "a2%"];
    assert ':' !in t[0] && ':' !in t[1];
    TagListRoundTrip(t);
  }

  lemma LineTrimmed()
    ensures Trim("COMMENT Title :tag:a2%:") == "COMMENT Title :tag:a2%:"
  {
    TrimTrimmed("COMMENT Title :tag:a2%:");
  }

  /** At the end of the input there is no planning line, no drawer and no blank line. */
  lemma NothingAfterLine()
    ensures Sample().planning([]) == None
    ensures PropertiesDrawer([], Sample()) == None
    ensures Sample().blankLinesCount([]) == Some(([], 0))
  {
    TakeWhileExact([], IsSpaceOrTab, 0);
  }

  /** A run of stars in front of a text that does not start with a star. */
  lemma StarsThen(stars: string, rest: string)
    requires (forall i :: 0 <= i < |stars| ==> stars[i] == '*') && rest != [] && rest[0] != '*'
    ensures TakeWhile(stars + rest, IsStar) == |stars| && (stars + rest)[|stars|..] == rest
  {
    TakeWhileExact(stars + rest, IsStar, |stars|);
  }

  /**
    The headline test vector `**** DONE [#A] COMMENT Title :tag:a2%:`, written
    as the pieces each step of the parser reads.
   */
  lemma FullHeadlineLine()
    ensures var line := "COMMENT Title :tag:a2%:";
      ParseHeadlineLine("****" + (" " + "DONE" + (" [#A] " + line)), DefaultConfig(), Sample())
      == Some(([], HeadlineLine(4, Some("DONE"), Some('A'), "COMMENT Title", ":tag:a2%:")))
  {
    var line := "COMMENT Title :tag:a2%:";
    var cookie := " [#A] " + line;
    var s1 := " " + "DONE" + cookie;
    StarsThen("****", s1);
    KeywordThen("DONE", cookie, DefaultConfig());
    assert line[0] == 'C';
    CookieABefore(line);
    OneLine();
    LineTrimmed();
    TitleAndTags();
  }

  /** A headline line that ends the input: no planning line, no drawer, no blank line. */
  lemma TitleOfLastLine(input: string, config: Config, c: Collaborators, h: HeadlineLine)
    requires Valid(c) && |input| > 0 && input[0] == '*'
    requires c.planning([]) == None && PropertiesDrawer([], c) == None && c.blankLinesCount([]) == Some(([], 0))
    requires ParseHeadlineLine(input, config, c) == Some(([], h))
    ensures ParseTitle(input, config, c)
      == Some(([], (Title(h.level, h.priority, TagList(h.group), h.keyword, h.raw, None, PropertiesMap([]), 0), h.raw)))
  {
  }

  /** `**** DONE [#A] COMMENT Title :tag:a2%:` yields every field of the headline. */
  lemma FullHeadline()
    ensures var line := "COMMENT Title :tag:a2%:";
      ParseTitle("****" + (" " + "DONE" + (" [#A] " + line)), DefaultConfig(), Sample())
      == Some(([], (Title(4, Some('A'), ["tag", "a2%"], Some("DONE"), "COMMENT Title", None, PropertiesMap([]), 0),
                    "COMMENT Title")))
  {
    var input := "****" + (" " + "DONE" + (" [#A] " + "COMMENT Title :tag:a2%:"));
    FullHeadlineLine();
    TagsOfGroup();
    NothingAfterLine();
    TitleOfLastLine(input, DefaultConfig(), Sample(), HeadlineLine(4, Some("DONE"), Some('A'), "COMMENT Title", ":tag:a2%:"));
  }
  /** The headline line of a title that ends the input, from the results of its steps. */
  lemma LastLineTitle(stars: string, s1: string, config: Config, s2: string, keyword: Option<string>,
                      s3: string, priority: Option<char>, line: string)
    requires stars != [] && forall i :: 0 <= i < |stars| ==> stars[i] == '*'
    requires s1 != [] && s1[0] != '*'
    requires ParseKeyword(s1, config, Sample()) == (s2, keyword)
    requires ParsePriority(s2) == (s3, priority)
    requires SampleLine(s3) == Some(([], line))
    ensures var (raw, group) := SplitTags(Trim(line));
      ParseTitle(stars + s1, config, Sample())
      == Some(([], (Title(|stars|, priority, TagList(group), keyword, raw, None, PropertiesMap([]), 0), raw)))
  {
    var (raw, group) := SplitTags(Trim(line));
    var h := HeadlineLine(|stars|, keyword, priority, raw, group);
    StarsThen(stars, s1);
    NothingAfterLine();
    assert ParseHeadlineLine(stars + s1, config, Sample()) == Some(([], h));
    TitleOfLastLine(stars + s1, config, Sample(), h);
  }

  /** A line without a newline is read whole and ends the input. */
  lemma NoNewline(s: string)
    requires '\n' !in s
    ensures SampleLine(s) == Some(([], s))
  {
  }

  /** Trimming one leading space off a trimmed text. */
  lemma TrimOneSpace(t: string)
    requires t != [] && IsTrimmed(t)
    ensures Trim(" " + t) == t
  {
    var s := " " + t;
    TakeWhileExact(s, IsWhitespace, 1);
    var r := Trim(s);
    assert s[|s| - 1] == t[|t| - 1];
    assert |r| == |t|;
    assert r == s[1..];
  }

  /** A space and then a byte that opens no cookie: the priority step consumes nothing. */
  lemma NoCookie(s: string)
    requires 1 < |s| && s[0] == ' ' && !IsSpaceOrTab(s[1]) && s[1] != '['
    ensures ParsePriority(s) == (s, None)
  {
    OneSpaceThen(s);
    assert s[1..][0] == s[1];
  }

  /** A text with no space or tab has no tag group. */
  lemma NoBlank(t: string)
    requires forall i :: 0 <= i < |t| ==> !IsSpaceOrTab(t[i])
    ensures SplitTags(t) == (t, [])
  {
  }

  /** An absent tag group has no tags. */
  lemma NoGroupNoTags()
    ensures TagList([]) == []
  {
    assert Split([], ':') == [[]];
  }

  /** A word that is neither a keyword nor a cookie, then the rest of a line with no tag group. */
  predicate PlainText(w: string, rest: string, config: Config) {
    w != [] && w[0] != '[' && (forall i :: 0 <= i < |w| ==> NotWhitespace(w[i])) && !IsTodoKeyword(config, w)
    && rest != [] && IsWhitespace(rest[0]) && '\n' !in w + rest && IsTrimmed(w + rest)
    && SplitTags(w + rest) == (w + rest, [])
  }

  /**
    A word that is not a keyword, then title text without a cookie: the word
    opens the title text, and there is no keyword, priority or tag.
   */
  lemma PlainTitle(stars: string, w: string, rest: string, config: Config)
    requires stars != [] && forall i :: 0 <= i < |stars| ==> stars[i] == '*'
    requires PlainText(w, rest, config)
    ensures ParseTitle(stars + (" " + w + rest), config, Sample())
      == Some(([], (Title(|stars|, None, [], None, w + rest, None, PropertiesMap([]), 0), w + rest)))
  {
    var s1 := " " + w + rest;
    assert s1 == " " + (w + rest) && s1[1] == w[0];
    WordNotKeyword(w, rest, config);
    NoCookie(s1);
    NoNewline(s1);
    TrimOneSpace(w + rest);
    NoGroupNoTags();
    LastLineTitle(stars, s1, config, s1, None, s1, None, s1);
  }

  /** A keyword, then a line that the priority step rejects and that has no tag group. */
  predicate KeyedText(w: string, t: string, config: Config) {
    w != [] && (forall i :: 0 <= i < |w| ==> NotWhitespace(w[i])) && IsTodoKeyword(config, w)
    && t != [] && IsTrimmed(t) && '\n' !in t && ParsePriority(" " + t) == (" " + t, None)
    && SplitTags(t) == (t, [])
  }

  /**
    A keyword, then title text that opens with something the priority step
    rejects: the rejected text opens the title text.
   */
  lemma KeywordNoPriority(stars: string, w: string, t: string, config: Config)
    requires stars != [] && forall i :: 0 <= i < |stars| ==> stars[i] == '*'
    requires KeyedText(w, t, config)
    ensures ParseTitle(stars + (" " + w + (" " + t)), config, Sample())
      == Some(([], (Title(|stars|, None, [], Some(w), t, None, PropertiesMap([]), 0), t)))
  {
    var s1 := " " + w + (" " + t);
    KeywordThen(w, " " + t, config);
    NoNewline(" " + t);
    TrimOneSpace(t);
    NoGroupNoTags();
    LastLineTitle(stars, s1, config, " " + t, Some(w), " " + t, None, " " + t);
  }

  /** A keyword, the cookie `[#A]`, then a line with no tag group. */
  predicate KeyedCookieText(w: string, t: string, config: Config) {
    w != [] && (forall i :: 0 <= i < |w| ==> NotWhitespace(w[i])) && IsTodoKeyword(config, w)
    && t != [] && !IsSpaceOrTab(t[0]) && IsTrimmed(t) && '\n' !in t && SplitTags(t) == (t, [])
  }

  /** A keyword, the cookie `[#A]`, then title text: all three are read. */
  lemma KeywordPriorityTitle(stars: string, w: string, t: string, config: Config)
    requires stars != [] && forall i :: 0 <= i < |stars| ==> stars[i] == '*'
    requires KeyedCookieText(w, t, config)
    ensures ParseTitle(stars + (" " + w + (" [#A] " + t)), config, Sample())
      == Some(([], (Title(|stars|, Some('A'), [], Some(w), t, None, PropertiesMap([]), 0), t)))
  {
    var s1 := " " + w + (" [#A] " + t);
    KeywordThen(w, " [#A] " + t, config);
    CookieABefore(t);
    NoNewline(t);
    TrimTrimmed(t);
    NoGroupNoTags();
    LastLineTitle(stars, s1, config, " [#A] " + t, Some(w), t, Some('A'), t);
  }

  lemma MixedCasePieces()
    ensures PlainText("ToDO", " [#A] COMMENT Title", DefaultConfig())
  {
    NoClosingColon("ToDO" + " [#A] COMMENT Title");
  }

  /** `**** ToDO [#A] COMMENT Title`: `ToDO` is not a keyword (the match is exact), so it opens the title text. */
  lemma MixedCaseKeywordRejected()
    ensures ParseTitle("****" + (" " + "ToDO" + " [#A] COMMENT Title"), DefaultConfig(), Sample())
      == Some(([], (Title(4, None, [], None, "ToDO" + " [#A] COMMENT Title", None, PropertiesMap([]), 0), "ToDO" + " [#A] COMMENT Title")))
  {
    MixedCasePieces();
    PlainTitle("****", "ToDO", " [#A] COMMENT Title", DefaultConfig());
  }

  lemma DigitPieces()
    ensures PlainText("T0DO", " [#A] COMMENT Title", DefaultConfig())
  {
    NoClosingColon("T0DO" + " [#A] COMMENT Title");
  }

  /** `**** T0DO [#A] COMMENT Title`: `T0DO`, with a zero, is not a keyword either. */
  lemma DigitKeywordRejected()
    ensures ParseTitle("****" + (" " + "T0DO" + " [#A] COMMENT Title"), DefaultConfig(), Sample())
      == Some(([], (Title(4, None, [], None, "T0DO" + " [#A] COMMENT Title", None, PropertiesMap([]), 0), "T0DO" + " [#A] COMMENT Title")))
  {
    DigitPieces();
    PlainTitle("****", "T0DO", " [#A] COMMENT Title", DefaultConfig());
  }

  lemma CookieDigitPieces()
    ensures KeyedText("DONE", "[#1] COMMENT Title", DefaultConfig())
  {
    assert '\n' !in "[#1] COMMENT Title";
    assert IsTrimmed("[#1] COMMENT Title");
    CookieLetterNotUpper(" " + "[#1] COMMENT Title");
    NoClosingColon("[#1] COMMENT Title");
  }

  /** `**** DONE [#1] COMMENT Title`: the cookie letter must be a letter, so the cookie opens the title text. */
  lemma CookieDigitRejected()
    ensures ParseTitle("****" + (" " + "DONE" + (" " + "[#1] COMMENT Title")), DefaultConfig(), Sample())
      == Some(([], (Title(4, None, [], Some("DONE"), "[#1] COMMENT Title", None, PropertiesMap([]), 0), "[#1] COMMENT Title")))
  {
    CookieDigitPieces();
    KeywordNoPriority("****", "DONE", "[#1] COMMENT Title", DefaultConfig());
  }

  lemma CookieLetterPieces()
    ensures KeyedText("DONE", "[#a] COMMENT Title", DefaultConfig())
  {
    assert '\n' !in "[#a] COMMENT Title";
    assert IsTrimmed("[#a] COMMENT Title");
    CookieLetterNotUpper(" " + "[#a] COMMENT Title");
    NoClosingColon("[#a] COMMENT Title");
  }

  /** `**** DONE [#a] COMMENT Title`: the cookie letter must be upper case, so the cookie opens the title text. */
  lemma CookieLetterRejected()
    ensures ParseTitle("****" + (" " + "DONE" + (" " + "[#a] COMMENT Title")), DefaultConfig(), Sample())
      == Some(([], (Title(4, None, [], Some("DONE"), "[#a] COMMENT Title", None, PropertiesMap([]), 0), "[#a] COMMENT Title")))
  {
    CookieLetterPieces();
    KeywordNoPriority("****", "DONE", "[#a] COMMENT Title", DefaultConfig());
  }

  lemma CookieWithoutBlankPieces()
    ensures KeyedText("DONE", "[#B]::", DefaultConfig())
  {
    CookieNotFollowedByBlank(" " + "[#B]::");
    NoBlank("[#B]::");
  }

  /** `** DONE [#B]::`: the cookie is followed by neither a blank nor a line ending, so it opens the title text. */
  lemma CookieWithoutBlankRejected()
    ensures ParseTitle("**" + (" " + "DONE" + (" " + "[#B]::")), DefaultConfig(), Sample())
      == Some(([], (Title(2, None, [], Some("DONE"), "[#B]::", None, PropertiesMap([]), 0), "[#B]::")))
  {
    CookieWithoutBlankPieces();
    KeywordNoPriority("**", "DONE", "[#B]::", DefaultConfig());
  }

  lemma UnclosedPieces()
    ensures PlainText("Title", " :tag:a2%", DefaultConfig())
  {
    UnclosedGroup();
  }

  /** `**** Title :tag:a2%`: the last token lacks its closing colon, so the whole line is the title text. */
  lemma UnclosedGroupStaysInTitle()
    ensures ParseTitle("****" + (" " + "Title" + " :tag:a2%"), DefaultConfig(), Sample())
      == Some(([], (Title(4, None, [], None, "Title" + " :tag:a2%", None, PropertiesMap([]), 0), "Title" + " :tag:a2%")))
  {
    UnclosedPieces();
    PlainTitle("****", "Title", " :tag:a2%", DefaultConfig());
  }

  lemma UnopenedPieces()
    ensures PlainText("Title", " tag:a2%:", DefaultConfig())
  {
    UnopenedGroup();
  }

  /** `**** Title tag:a2%:`: the last token lacks its opening colon, so the whole line is the title text. */
  lemma UnopenedGroupStaysInTitle()
    ensures ParseTitle("****" + (" " + "Title" + " tag:a2%:"), DefaultConfig(), Sample())
      == Some(([], (Title(4, None, [], None, "Title" + " tag:a2%:", None, PropertiesMap([]), 0), "Title" + " tag:a2%:")))
  {
    UnopenedPieces();
    PlainTitle("****", "Title", " tag:a2%:", DefaultConfig());
  }

  lemma NoKeywordsPieces()
    ensures PlainText("DONE", " Title", NoKeywords())
  {
    NoClosingColon("DONE" + " Title");
  }

  /** `**** DONE Title` with no keyword configured: `DONE` opens the title text. */
  lemma NoKeywordsConfigured()
    ensures ParseTitle("****" + (" " + "DONE" + " Title"), NoKeywords(), Sample())
      == Some(([], (Title(4, None, [], None, "DONE" + " Title", None, PropertiesMap([]), 0), "DONE" + " Title")))
  {
    NoKeywordsPieces();
    PlainTitle("****", "DONE", " Title", NoKeywords());
  }

  lemma CustomKeywordPieces()
    ensures KeyedCookieText("TASK", "Title", TaskKeyword())
  {
    assert "Title"[0] == 'T' && "Title"[4] == 'e';
    NoClosingColon("Title");
  }

  /** `**** TASK [#A] Title` with `TASK` configured: keyword, priority and title text. */
  lemma CustomKeyword()
    ensures ParseTitle("****" + (" " + "TASK" + (" [#A] " + "Title")), TaskKeyword(), Sample())
      == Some(([], (Title(4, Some('A'), [], Some("TASK"), "Title", None, PropertiesMap([]), 0), "Title")))
  {
    CustomKeywordPieces();
    KeywordPriorityTitle("****", "TASK", "Title", TaskKeyword());
  }

  // ---------------------------------------------------------------------------
  // The property drawer vector
  // ---------------------------------------------------------------------------

  /** `Sample()` with a given drawer parser in place of `NoDrawer`. */
  function WithDrawer(drawer: string -> Option<(string, Drawer)>): (c: Collaborators)
    requires DrawerOk(drawer)
    ensures Valid(c) && c.drawer == drawer && c.line == SampleLine && c.blankLinesCount == SampleBlankLines
  {
    var c := Sample();
    Collaborators(c.line, c.oneWord, c.blankLinesCount, c.planning, drawer)
  }

  lemma TrimStartExact(s: string, k: nat)
    requires k < |s| && (forall i :: 0 <= i < k ==> IsWhitespace(s[i])) && !IsWhitespace(s[k])
    ensures TrimStart(s) == s[k..]
  {
    TakeWhileExact(s, IsWhitespace, k);
  }

  /** A text that does not end with `c` keeps all of its bytes. */
  lemma NoTrailingMatch(s: string, c: char)
    requires s != [] && s[|s| - 1] != c
    ensures TrimEndMatches(s, c) == s
  {
    var r := TrimEndMatches(s, c);
    assert |r| == |s| && s[..|r|] == r;
  }

  /** One leading space in front of a word is trimmed away. */
  lemma TrimLeadingSpace(s: string)
    requires 1 < |s| && s[0] == ' ' && forall i :: 1 <= i < |s| ==> !IsWhitespace(s[i])
    ensures Trim(s) == s[1..]
  {
    TakeWhileExact(s, IsWhitespace, 1);
  }

  /** Indentation in front of a text that starts with a non-blank byte is trimmed away. */
  lemma TrimIndent(pad: string, body: string)
    requires (forall i :: 0 <= i < |pad| ==> IsWhitespace(pad[i])) && body != [] && !IsWhitespace(body[0])
    ensures TrimStart(pad + body) == body
  {
    assert (pad + body)[|pad|..] == body;
    TrimStartExact(pad + body, |pad|);
  }

  /** Before the first colon: no blank line, three spaces of indentation. */
  lemma IndentStep()
    ensures var s := "   :CUSTOM_ID: id\n";
      SampleBlankLines(s) == Some((s, 0)) && TrimStart(s) == ":CUSTOM_ID: id\n"
  {
    var s := "   :CUSTOM_ID: id\n";
    assert s[0] == ' ' && s[1] == ' ' && s[2] == ' ' && s[3] == ':' && s[3..] == ":CUSTOM_ID: id\n";
    TakeWhileExact(s, IsSpaceOrTab, 3);
    TrimStartExact(s, 3);
  }

  /** Between the colons: the name `CUSTOM_ID`, and the rest of the line after the second colon. */
  lemma NameStep()
    ensures var t := ":CUSTOM_ID: id\n";
      t[0] == ':' && FirstIndex(t[1..], ':') == Some(9)
      && TrimEndMatches(t[1..10], '+') == "CUSTOM_ID" && t[11..] == " id\n"
  {
    var t := ":CUSTOM_ID: id\n";
    assert t[1..][9] == ':' && forall j :: 0 <= j < 9 ==> t[1..][j] != ':';
    FirstIndexAt(t[1..], ':', 9);
    assert t[1..10] == "CUSTOM_ID";
    NoTrailingMatch("CUSTOM_ID", '+');
  }

  /** After the name: the value line ` id`, trimmed to `id`. */
  lemma ValueStep()
    ensures SampleLine(" id\n") == Some(([], " id")) && Trim(" id") == "id"
  {
    var u := " id\n";
    assert u[3] == '\n' && (forall j :: 0 <= j < 3 ==> u[j] != '\n') && u[..3] == " id" && u[4..] == [];
    FirstIndexAt(u, '\n', 3);
    TrimLeadingSpace(" id");
  }

  /** `:CUSTOM_ID: id` is the property (`CUSTOM_ID`, `id`), and the line ending goes with it. */
  lemma CustomIdProperty(c: Collaborators)
    requires Valid(c) && c.line == SampleLine && c.blankLinesCount == SampleBlankLines
    ensures ParseNodeProperty("   :CUSTOM_ID: id\n", c) == Some(([], ("CUSTOM_ID", "id")))
  {
    IndentStep();
    NameStep();
    ValueStep();
  }

  /** The empty rest of a drawer body holds no property. */
  lemma NoPropertyLeft(c: Collaborators)
    requires Valid(c) && c.blankLinesCount == SampleBlankLines
    ensures NodeProperties([], c) == []
  {
    TakeWhileExact([], IsSpaceOrTab, 0);
  }

  /** The test drawer's body holds one property. */
  lemma CustomIdBody(c: Collaborators)
    requires Valid(c) && c.line == SampleLine && c.blankLinesCount == SampleBlankLines
    ensures NodeProperties("   :CUSTOM_ID: id\n", c) == [("CUSTOM_ID", "id")]
  {
    CustomIdProperty(c);
    NoPropertyLeft(c);
  }

  /**
    The drawer test vector: a `PROPERTIES` drawer, indented by three spaces,
    whose body is one indented `:CUSTOM_ID: id` line yields exactly that pair.
    The drawer framing is the drawer parser's answer, given here.
   */
  lemma CustomIdDrawer(drawer: string -> Option<(string, Drawer)>)
    requires DrawerOk(drawer)
    requires drawer(":PROPERTIES:\n   :CUSTOM_ID: id\n   :END:") == Some(([], Drawer("PROPERTIES", "   :CUSTOM_ID: id\n")))
    ensures PropertiesDrawer("   " + ":PROPERTIES:\n   :CUSTOM_ID: id\n   :END:", WithDrawer(drawer))
      == Some(([], PropertiesMap([("CUSTOM_ID", "id")])))
  {
    TrimIndent("   ", ":PROPERTIES:\n   :CUSTOM_ID: id\n   :END:");
    CustomIdBody(WithDrawer(drawer));
  }
}
