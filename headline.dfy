/**
  The headline title parser of src/elements/title.rs: one headline line
  (`*** TODO [#A] Some title :tag1:tag2:`) and the planning line, property
  drawer and blank lines that follow it, decoded into a `Title` record.
 */
module Headline {
  import opened Wrappers
  import opened Text
  import opened Combinators

  /** The `todo_keywords` of the parse configuration: the open and the closed states. */
  datatype Config = Config(todoKeywords: (seq<string>, seq<string>))

  /** A word is a todo keyword when it equals an entry of either list exactly. */
  predicate IsTodoKeyword(config: Config, w: string)
    ensures config.todoKeywords == ([], []) ==> !IsTodoKeyword(config, w)
  {
    w in config.todoKeywords.0 || w in config.todoKeywords.1
  }

  /** A property: its name and its value. */
  type Pair = (string, string)

  /** The properties of a headline, in drawer order; a name may occur more than once. */
  datatype PropertiesMap = PropertiesMap(pairs: seq<Pair>)
  {
    static function New(): (m: PropertiesMap)
      ensures m.IsEmpty()
    {
      PropertiesMap([])
    }

    predicate IsEmpty()
      ensures IsEmpty() <==> |pairs| == 0
    {
      pairs == []
    }

    /** Collecting an iterator of pairs keeps every pair, duplicates included, in iteration order. */
    static function FromIter(items: seq<Pair>): (m: PropertiesMap)
      ensures |m.pairs| == |items| && forall i :: 0 <= i < |items| ==> m.pairs[i] == items[i]
      ensures m.IsEmpty() <==> items == []
    {
      PropertiesMap(items)
    }

    /**
      Collecting the pairs into a hash map: one key per distinct name, and each
      key maps to the value of the LAST pair with that name.
     */
    method IntoHashMap() returns (m: map<string, string>)
      ensures m.Keys == Names(pairs)
      ensures forall k :: k in m ==> LastValue(pairs, k) == Some(m[k])
    {
      m := map[];
      for i := 0 to |pairs|
        invariant m.Keys == Names(pairs[..i])
        invariant forall k :: k in m ==> LastValue(pairs[..i], k) == Some(m[k])
      {
        assert pairs[..i + 1] == pairs[..i] + [pairs[i]];
        Snoc(pairs[..i], pairs[i]);
        m := m[pairs[i].0 := pairs[i].1];
      }
      assert pairs[..|pairs|] == pairs;
    }
  }

  ghost function Names(ps: seq<Pair>): set<string> {
    set i | 0 <= i < |ps| :: ps[i].0
  }

  /** Appending one pair adds its name, and makes its value the last one for that name. */
  lemma Snoc(ps: seq<Pair>, q: Pair)
    ensures Names(ps + [q]) == Names(ps) + {q.0}
    ensures forall k :: LastValue(ps + [q], k) == if q.0 == k then Some(q.1) else LastValue(ps, k)
  {
    var qs := ps + [q];
    assert qs[..|ps|] == ps;
    forall x | x in Names(qs) ensures x in Names(ps) + {q.0} {
      var i :| 0 <= i < |qs| && qs[i].0 == x;
      if i < |ps| {
        assert ps[i].0 == x;
      }
    }
    forall x | x in Names(ps) ensures x in Names(qs) {
      var i :| 0 <= i < |ps| && ps[i].0 == x;
      assert qs[i].0 == x;
    }
    assert qs[|ps|].0 == q.0;
  }

  /** The value of the last pair named `k`, if any. */
  function LastValue(ps: seq<Pair>, k: string): (r: Option<string>)
    ensures r.Some? ==>
      exists i :: 0 <= i < |ps| && ps[i] == (k, r.value) && (forall j :: i < j < |ps| ==> ps[j].0 != k)
    ensures r.None? <==> forall j :: 0 <= j < |ps| ==> ps[j].0 != k
  {
    if ps == [] then None
    else if ps[|ps| - 1].0 == k then Some(ps[|ps| - 1].1)
    else
      var init := ps[..|ps| - 1];
      assert forall j :: 0 <= j < |init| ==> init[j] == ps[j];
      LastValue(init, k)
  }

  /** One parsed headline. */
  datatype Title = Title(
    level: nat,
    priority: Option<char>,
    tags: seq<string>,
    keyword: Option<string>,
    raw: string,
    planning: Option<Planning>,
    properties: PropertiesMap,
    postBlank: nat)
  {
    /** A headline is archived when one of its tags is exactly `ARCHIVE`. */
    predicate IsArchived()
      ensures IsArchived() <==> exists i :: 0 <= i < |tags| && tags[i] == "ARCHIVE"
    {
      "ARCHIVE" in tags
    }

    /** A headline is commented when the first whitespace-delimited word of its title is `COMMENT`. */
    predicate IsCommented()
      ensures IsCommented() <==> LeadingWord(raw) == "COMMENT"
    {
      CommentedByLeadingWord(raw);
      |raw| >= 7 && raw[..7] == "COMMENT" && (|raw| == 7 || IsWhitespace(raw[7]))
    }

    /** The default title: level 1, nothing else. */
    static function Default(): (t: Title)
      ensures t.level == 1 && t.postBlank == 0 && t.raw == [] && t.tags == []
      ensures t.keyword.None? && t.priority.None? && t.planning.None? && t.properties.IsEmpty()
      ensures !t.IsCommented() && !t.IsArchived()
    {
      Title(1, None, [], None, [], None, PropertiesMap.New(), 0)
    }
  }

  /** The bytes before the first whitespace byte. */
  function LeadingWord(s: string): (w: string)
    ensures IsPrefix(w, s)
    ensures forall i :: 0 <= i < |w| ==> !IsWhitespace(w[i])
    ensures |w| < |s| ==> IsWhitespace(s[|w|])
  {
    s[..TakeWhile(s, NotWhitespace)]
  }

  lemma CommentedByLeadingWord(raw: string)
    ensures (|raw| >= 7 && raw[..7] == "COMMENT" && (|raw| == 7 || IsWhitespace(raw[7])))
      <==> LeadingWord(raw) == "COMMENT"
  {
    if |raw| >= 7 && raw[..7] == "COMMENT" {
      forall i | 0 <= i < 7 ensures NotWhitespace(raw[i]) {
        assert raw[i] == "COMMENT"[i];
      }
      TakeWhileAtLeast(raw, NotWhitespace, 7);
    }
  }

  lemma {:induction false} TakeWhileAtLeast(s: string, p: char -> bool, k: nat)
    requires k <= |s| && forall i :: 0 <= i < k ==> p(s[i])
    ensures TakeWhile(s, p) >= k
  {
    if k > 0 {
      TakeWhileAtLeast(s[1..], p, k - 1);
    }
  }

  // ---------------------------------------------------------------------------
  // The headline line
  // ---------------------------------------------------------------------------

  /**
    The todo keyword step: whitespace, then one word kept only when it is a
    configured keyword. On no match nothing is consumed, so the word stays in
    the text that follows.
   */
  function ParseKeyword(s: string, config: Config, c: Collaborators): (r: (string, Option<string>))
    requires Valid(c)
    ensures r.1.None? ==> r.0 == s
    ensures r.1.Some? ==> IsTodoKeyword(config, r.1.value)
    ensures r.1.Some? ==> var g := |s| - |r.0| - |r.1.value|;
      0 < g && s == s[..g] + r.1.value + r.0 && (forall i :: 0 <= i < g ==> IsSpaceOrTab(s[i]))
      && r.1.value != [] && !IsSpaceOrTab(r.1.value[0]) && c.oneWord(s[g..]) == Some((r.0, r.1.value))
  {
    match Space1(s)
    case None => (s, None)
    case Some(s1) =>
      match c.oneWord(s1)
      case None => (s, None)
      case Some((s2, w)) =>
        if IsTodoKeyword(config, w) then
          assert s1 == w + s2;
          assert s == s[..|s| - |s1|] + s1;
          (s2, Some(w))
        else (s, None)
  }

  /**
    The converse of `ParseKeyword`'s contract: a run of blanks, then a word
    that `one_word` reads and that is a configured keyword, is always read.
   */
  lemma KeywordRead(s: string, config: Config, c: Collaborators, g: nat, w: string, rest: string)
    requires Valid(c) && 0 < g <= |s|
    requires s == s[..g] + w + rest && forall i :: 0 <= i < g ==> IsSpaceOrTab(s[i])
    requires w != [] && !IsSpaceOrTab(w[0])
    requires c.oneWord(w + rest) == Some((rest, w)) && IsTodoKeyword(config, w)
    ensures ParseKeyword(s, config, c) == (rest, Some(w))
  {
    assert s[g] == w[0];
    TakeWhileAtLeast(s, IsSpaceOrTab, g);
    assert s[g..] == w + rest;
  }

  /** What must follow a priority cookie: spaces or tabs, or a line ending. */
  function WhiteSpacesOrEol(s: string): (r: Option<string>)
    ensures r.Some? <==> |s| > 0 && (IsSpaceOrTab(s[0]) || s[0] == '\n' || (|s| > 1 && s[..2] == "\r\n"))
    ensures r.Some? ==> IsSuffix(r.value, s)
    ensures r.Some? ==>
      r.value == (if IsSpaceOrTab(s[0]) then s[TakeWhile(s, IsSpaceOrTab)..] else if s[0] == '\n' then s[1..] else s[2..])
  {
    match Space1(s)
    case Some(r) => Some(r)
    case None => LineEnding(s)
  }

  /**
    The priority step: whitespace, `[#`, one upper-case ASCII letter, `]`, then
    whitespace or a line ending. On no match nothing is consumed.
   */
  function ParsePriority(s: string): (r: (string, Option<char>))
    ensures r.1.None? ==> r.0 == s
    ensures r.1.Some? ==> IsAsciiUpper(r.1.value) && IsSuffix(r.0, s)
  {
    match Space1(s)
    case None => (s, None)
    case Some(s1) =>
      if |s1| >= 4 && s1[0] == '[' && s1[1] == '#' && IsAsciiUpper(s1[2]) && s1[3] == ']' then
        match WhiteSpacesOrEol(s1[4..])
        case None => (s, None)
        case Some(s2) =>
          SuffixTransitive(s1[4..], s1, s);
          SuffixTransitive(s2, s1[4..], s);
          (s2, Some(s1[2]))
      else (s, None)
  }

  /** `s` holds a priority cookie for `ch` after its first `n` bytes, all spaces or tabs. */
  predicate CookieAt(s: string, n: nat, ch: char) {
    0 < n && n + 4 <= |s| && (forall i :: 0 <= i < n ==> IsSpaceOrTab(s[i]))
    && s[n] == '[' && s[n + 1] == '#' && s[n + 2] == ch && s[n + 3] == ']' && IsAsciiUpper(ch)
    && WhiteSpacesOrEol(s[n + 4..]).Some?
  }

  /**
    A recognised cookie sits right after the leading run of spaces or tabs, and
    what is left is the text after the blanks or line ending that follow it.
   */
  lemma PriorityRemainder(s: string)
    ensures ParsePriority(s).1.Some? ==>
      var n := TakeWhile(s, IsSpaceOrTab);
      CookieAt(s, n, ParsePriority(s).1.value) && ParsePriority(s).0 == WhiteSpacesOrEol(s[n + 4..]).value
  {
    var n := TakeWhile(s, IsSpaceOrTab);
    if ParsePriority(s).1.Some? {
      assert Space1(s) == Some(s[n..]);
      assert s[n..][4..] == s[n + 4..];
    }
  }

  /**
    A priority cookie is recognised exactly when the text is a run of spaces or
    tabs, `[#X]` with `X` upper case, and then a space, a tab or a line ending.
   */
  lemma PriorityCookieIff(s: string, ch: char)
    ensures ParsePriority(s).1 == Some(ch) <==> exists n :: CookieAt(s, n, ch)
  {
    var m := TakeWhile(s, IsSpaceOrTab);
    if m > 0 {
      assert Space1(s) == Some(s[m..]);
      var s1 := s[m..];
      assert |s1| >= 4 ==> s1[4..] == s[m + 4..];
      if ParsePriority(s).1 == Some(ch) {
        assert CookieAt(s, m, ch);
      }
    }
    if exists n :: CookieAt(s, n, ch) {
      var n :| CookieAt(s, n, ch);
      CookieAfterSpaces(s, n, ch);
    }
  }

  lemma CookieAfterSpaces(s: string, n: nat, ch: char)
    requires CookieAt(s, n, ch)
    ensures n == TakeWhile(s, IsSpaceOrTab)
    ensures ParsePriority(s).1 == Some(ch)
  {
    var m := TakeWhile(s, IsSpaceOrTab);
    assert !IsSpaceOrTab(s[n]);
    assert m == n;
    assert Space1(s) == Some(s[n..]);
    assert s[n..][4..] == s[n + 4..];
  }

  /** `is_tag_line`'s byte class. */
  predicate IsTagChar(ch: char) {
    IsAlphanumeric(ch) || ch == '_' || ch == '@' || ch == '#' || ch == '%' || ch == ':'
  }

  /** A tag group: longer than two bytes, colon at both ends, only tag bytes. It is one blank-free token. */
  predicate IsTagLine(s: string)
    ensures IsTagLine(s) ==> |s| > 2 && forall i :: 0 <= i < |s| ==> !IsWhitespace(s[i])
  {
    |s| > 2 && s[0] == ':' && s[|s| - 1] == ':' && forall i :: 0 <= i < |s| ==> IsTagChar(s[i])
  }

  /**
    The tag split: the token after the LAST space or tab of the trimmed line is
    the tag group when it is a tag line; the title text is then what precedes
    that separator, trimmed. Otherwise the whole line is the title text.
    Returns (raw, tag group); an absent group is the empty string.
   */
  function SplitTags(tail: string): (r: (string, string))
    ensures r.1 == [] || IsTagLine(r.1)
    ensures IsTrimmed(tail) ==> IsTrimmed(r.0) && IsPrefix(r.0, tail)
    ensures r.1 == [] ==> r.0 == tail
    ensures r.1 != [] ==> var i := |tail| - |r.1| - 1;
      0 <= i && IsSpaceOrTab(tail[i]) && r.1 == tail[i + 1..] && r.0 == Trim(tail[..i])
  {
    var k := LastIndexWhere(tail, IsSpaceOrTab);
    if k.Some? && IsTagLine(tail[k.value + 1..]) then
      var i := k.value;
      var group := tail[i + 1..];
      TrimmedHead(tail, i);
      (Trim(tail[..i]), group)
    else (tail, [])
  }

  /** The trimmed head of a trimmed text is a prefix of it. */
  lemma TrimmedHead(tail: string, i: nat)
    requires i <= |tail|
    ensures IsTrimmed(tail) ==> IsPrefix(Trim(tail[..i]), tail)
  {
    if IsTrimmed(tail) && i > 0 {
      var h := tail[..i];
      assert !IsWhitespace(h[0]);
      assert TakeWhile(h, IsWhitespace) == 0;
      var r := Trim(h);
      assert r == h[..|r|];
    }
  }

  /** `tail[i]` is the last space or tab of `tail`, and a tag line follows it. */
  predicate TagGroupAt(tail: string, i: nat) {
    i < |tail| && IsSpaceOrTab(tail[i])
    && (forall j :: i < j < |tail| ==> !IsSpaceOrTab(tail[j]))
    && IsTagLine(tail[i + 1..])
  }

  /** The group comes from the last space- or tab-separated token, and only when that token is a tag line. */
  lemma TagGroupIsLastToken(tail: string)
    ensures SplitTags(tail).1 != [] <==> exists i :: TagGroupAt(tail, i)
  {
    var k := LastIndexWhere(tail, IsSpaceOrTab);
    if SplitTags(tail).1 != [] {
      assert k.Some? && IsTagLine(tail[k.value + 1..]);
      assert TagGroupAt(tail, k.value);
    }
    if exists i :: TagGroupAt(tail, i) {
      var i :| TagGroupAt(tail, i);
      LastIndexAt(tail, i);
    }
  }

  /** A space or tab with none after it is the last one. */
  lemma LastIndexAt(tail: string, i: nat)
    requires i < |tail| && IsSpaceOrTab(tail[i]) && forall j :: i < j < |tail| ==> !IsSpaceOrTab(tail[j])
    ensures LastIndexWhere(tail, IsSpaceOrTab) == Some(i)
  {
  }

  /** `str::split(d)`: every piece between separators, empty ones included, in order. */
  function Split(s: string, d: char): (r: seq<string>)
    ensures |r| > 0
    ensures forall i :: 0 <= i < |r| ==> d !in r[i]
    decreases |s|
  {
    match FirstIndex(s, d)
    case None => [s]
    case Some(i) => [s[..i]] + Split(s[i + 1..], d)
  }

  /** `filter(|s| !s.is_empty())`. */
  function DropEmpty(ps: seq<string>): (r: seq<string>)
    ensures forall i :: 0 <= i < |r| ==> r[i] != [] && r[i] in ps
  {
    if ps == [] then []
    else if ps[0] == [] then DropEmpty(ps[1..])
    else [ps[0]] + DropEmpty(ps[1..])
  }

  /** The tags of a tag group: its colon-separated segments, left to right, empty ones dropped. */
  function TagList(group: string): (tags: seq<string>)
    ensures forall i :: 0 <= i < |tags| ==> tags[i] != [] && ':' !in tags[i]
  {
    DropEmpty(Split(group, ':'))
  }

  /** The tags joined with a colon after each one. */
  function JoinTags(tags: seq<string>): string {
    if tags == [] then [] else tags[0] + [':'] + JoinTags(tags[1..])
  }

  /** `Split` over `JoinTags` gives the tags back, plus the empty piece after the last colon. */
  lemma {:induction false} SplitJoin(tags: seq<string>)
    requires forall i :: 0 <= i < |tags| ==> ':' !in tags[i]
    ensures Split(JoinTags(tags), ':') == tags + [[]]
  {
    if tags != [] {
      var t := tags[0];
      assert JoinTags(tags) == t + [':'] + JoinTags(tags[1..]);
      SplitFirst(t, JoinTags(tags[1..]));
      SplitJoin(tags[1..]);
      assert tags == [t] + tags[1..];
    }
  }

  /** A colon-free piece, a colon, and the rest: the piece comes first, then the rest's pieces. */
  lemma SplitFirst(t: string, rest: string)
    requires ':' !in t
    ensures Split(t + [':'] + rest, ':') == [t] + Split(rest, ':')
  {
    var s := t + [':'] + rest;
    assert s[|t|] == ':';
    assert forall j :: 0 <= j < |t| ==> s[j] == t[j];
    FirstIndexAt(s, ':', |t|);
    assert s[|t| + 1..] == rest;
    assert s[..|t|] == t;
  }

  lemma FirstIndexAt(s: string, c: char, i: nat)
    requires i < |s| && s[i] == c && forall j :: 0 <= j < i ==> s[j] != c
    ensures FirstIndex(s, c) == Some(i)
  {
  }

  /**
    Tag parsing round-trips: writing non-empty, colon-free tags back as a group
    `:t1:t2:...:` and parsing that group again gives the same tags.
   */
  lemma {:induction false} TagListRoundTrip(tags: seq<string>)
    requires forall i :: 0 <= i < |tags| ==> tags[i] != [] && ':' !in tags[i]
    ensures TagList([':'] + JoinTags(tags)) == tags
  {
    var g := [':'] + JoinTags(tags);
    assert FirstIndex(g, ':') == Some(0);
    assert g[1..] == JoinTags(tags);
    SplitJoin(tags);
    assert Split(g, ':') == [[]] + tags + [[]];
    assert DropEmpty([[]] + tags + [[]]) == DropEmpty(tags + [[]]);
    DropEmptyAppend(tags, [[]]);
    NoEmptyPiece(tags);
    assert DropEmpty([[]]) == [];
    assert tags + [[]] == tags + [[]];
  }

  lemma {:induction false} DropEmptyAppend(a: seq<string>, b: seq<string>)
    ensures DropEmpty(a + b) == DropEmpty(a) + DropEmpty(b)
  {
    if a == [] {
      assert a + b == b;
    } else {
      var x, rest := a[0], a[1..];
      var kept := if x == [] then [] else [x];
      assert a == [x] + rest;
      DropEmptyAppend(rest, b);
      calc {
        DropEmpty(a + b);
      == { assert a + b == [x] + (rest + b); DropEmptyCons(x, rest + b); }
        kept + DropEmpty(rest + b);
      ==
        kept + (DropEmpty(rest) + DropEmpty(b));
      == { DropEmptyCons(x, rest); }
        DropEmpty(a) + DropEmpty(b);
      }
    }
  }

  /** A list with no empty piece is unchanged. */
  lemma {:induction false} NoEmptyPiece(ps: seq<string>)
    requires forall i :: 0 <= i < |ps| ==> ps[i] != []
    ensures DropEmpty(ps) == ps
  {
    if ps != [] {
      NoEmptyPiece(ps[1..]);
      assert ps == [ps[0]] + ps[1..];
    }
  }

  /** The first piece is kept exactly when it is not empty. */
  lemma DropEmptyCons(x: string, rest: seq<string>)
    ensures DropEmpty([x] + rest) == (if x == [] then [] else [x]) + DropEmpty(rest)
  {
    assert ([x] + rest)[0] == x && ([x] + rest)[1..] == rest;
  }

  /** Re-splitting a reconstructed tag group gives the same tags (tag parsing is idempotent). */
  lemma TagListIdempotent(group: string)
    ensures TagList([':'] + JoinTags(TagList(group))) == TagList(group)
  {
    TagListRoundTrip(TagList(group));
  }

  // ---------------------------------------------------------------------------
  // The property drawer
  // ---------------------------------------------------------------------------

  /** A parsed property: the name has no colon and no trailing `+`; the value is trimmed. */
  predicate WellFormedPair(p: Pair) {
    ':' !in p.0 && (p.0 == [] || p.0[|p.0| - 1] != '+')
    && IsTrimmed(p.1)
  }

  /**
    One `:NAME: value` line: skip blank lines and leading whitespace, read the
    name between the first two colons and drop its trailing `+`s, then take
    the rest of the line, trimmed, as the value.
   */
  function ParseNodeProperty(s: string, c: Collaborators): (r: Option<(string, Pair)>)
    requires Valid(c)
    ensures r.Some? ==> IsSuffix(r.value.0, s) && |r.value.0| + 2 <= |s|
    ensures r.Some? ==> WellFormedPair(r.value.1)
  {
    match c.blankLinesCount(s)
    case None => None
    case Some((s1, _)) =>
      var s2 := TrimStart(s1);
      if s2 == [] || s2[0] != ':' then None
      else
        match FirstIndex(s2[1..], ':')
        case None => None
        case Some(k) =>
          var name := TrimEndMatches(s2[1..k + 1], '+');
          var s3 := s2[k + 2..];
          match c.line(s3)
          case None => None
          case Some((s4, value)) =>
            assert ':' !in name by {
              assert s2[1..][..k] == s2[1..k + 1];
              assert forall j :: 0 <= j < |name| ==> name[j] == s2[1..][..k][j];
            }
            SuffixTransitive(s2, s1, s);
            SuffixTransitive(s3, s2, s);
            SuffixTransitive(s4, s3, s);
            Some((s4, (name, Trim(value))))
  }

  /** `s2` opens with a colon, and its first other colon is at `k + 1`: the name field is `s2[1..k + 1]`. */
  predicate NameAt(s2: string, k: nat) {
    k + 2 <= |s2| && s2[0] == ':' && s2[k + 1] == ':' && forall j :: 1 <= j <= k ==> s2[j] != ':'
  }

  /** `name` is `field` without its trailing run of `+`. */
  predicate PlusTrimmed(field: string, name: string) {
    IsPrefix(name, field) && (forall j :: |name| <= j < |field| ==> field[j] == '+')
    && (name == [] || name[|name| - 1] != '+')
  }

  /**
    When a property line matches: after the blank lines (`s1`) and the
    indentation, a colon, a name field up to the next colon, then a line.
   */
  lemma NodePropertyIff(s: string, c: Collaborators, s1: string, n: nat)
    requires Valid(c) && c.blankLinesCount(s) == Some((s1, n))
    ensures ParseNodeProperty(s, c).Some? <==>
      exists k :: NameAt(TrimStart(s1), k) && c.line(TrimStart(s1)[k + 2..]).Some?
  {
    var s2 := TrimStart(s1);
    if exists k :: NameAt(s2, k) && c.line(s2[k + 2..]).Some? {
      var k :| NameAt(s2, k) && c.line(s2[k + 2..]).Some?;
      NameFieldMatches(s, c, s1, n, k);
    }
    if ParseNodeProperty(s, c).Some? {
      NodePropertyFields(s, c, s1, n);
    }
  }

  lemma NameFieldMatches(s: string, c: Collaborators, s1: string, n: nat, k: nat)
    requires Valid(c) && c.blankLinesCount(s) == Some((s1, n))
    requires NameAt(TrimStart(s1), k) && c.line(TrimStart(s1)[k + 2..]).Some?
    ensures ParseNodeProperty(s, c).Some?
  {
    FirstColon(TrimStart(s1), k);
  }

  /**
    What a matched property line yields: the name is the name field without
    its trailing `+`s, the value is the rest of the line, trimmed, and the
    remainder is what follows that line.
   */
  lemma NodePropertyFields(s: string, c: Collaborators, s1: string, n: nat)
    requires Valid(c) && c.blankLinesCount(s) == Some((s1, n)) && ParseNodeProperty(s, c).Some?
    ensures var s2 := TrimStart(s1);
      var (rest, (name, value)) := ParseNodeProperty(s, c).value;
      exists k :: NameAt(s2, k) && PlusTrimmed(s2[1..k + 1], name)
        && c.line(s2[k + 2..]).Some? && c.line(s2[k + 2..]).value.0 == rest
        && value == Trim(c.line(s2[k + 2..]).value.1)
  {
    var s2 := TrimStart(s1);
    var k := FirstIndex(s2[1..], ':').value;
    assert NameAt(s2, k);
    assert s2[1..k + 1] == s2[1..][..k];
  }

  lemma FirstColon(s2: string, k: nat)
    requires NameAt(s2, k)
    ensures FirstIndex(s2[1..], ':') == Some(k)
  {
    var t := s2[1..];
    assert t[k] == ':';
    assert forall j :: 0 <= j < k ==> t[j] == s2[j + 1];
  }

  /** The properties read by repeating `ParseNodeProperty` until it fails, in order. */
  function NodeProperties(s: string, c: Collaborators): (ps: seq<Pair>)
    requires Valid(c)
    ensures 2 * |ps| <= |s|
    ensures forall i :: 0 <= i < |ps| ==> WellFormedPair(ps[i])
    decreases |s|
  {
    var r := ParseNodeProperty(s, c);
    if r.None? then [] else [r.value.1] + NodeProperties(r.value.0, c)
  }

  /** One more property line: its pair comes next, then the properties after it. */
  lemma PropertyStep(done: seq<Pair>, s: string, c: Collaborators)
    requires Valid(c) && ParseNodeProperty(s, c).Some?
    ensures var (rest, pair) := ParseNodeProperty(s, c).value;
      |rest| < |s| && done + NodeProperties(s, c) == (done + [pair]) + NodeProperties(rest, c)
  {
  }

  /**
    The property drawer: it matches only when the drawer framing matches and the
    drawer is named exactly `PROPERTIES`; its pairs are the node properties of
    the drawer body, in order. Zero pairs is a match.
   */
  function PropertiesDrawer(input: string, c: Collaborators): (r: Option<(string, PropertiesMap)>)
    requires Valid(c)
    ensures r.Some? <==> c.drawer(TrimStart(input)).Some? && c.drawer(TrimStart(input)).value.1.name == "PROPERTIES"
    ensures r.Some? ==> IsSuffix(r.value.0, input)
    ensures r.Some? ==> r.value.1.pairs == NodeProperties(c.drawer(TrimStart(input)).value.1.contents, c)
  {
    match c.drawer(TrimStart(input))
    case None => None
    case Some((rest, d)) =>
      if d.name != "PROPERTIES" then None
      else
        SuffixTransitive(rest, TrimStart(input), input);
        Some((rest, PropertiesMap(NodeProperties(d.contents, c))))
  }

  /** `parse_properties_drawer`: frame the drawer, then fold its property lines into the map. */
  method ParsePropertiesDrawer(input: string, c: Collaborators) returns (r: Option<(string, PropertiesMap)>)
    requires Valid(c)
    ensures r == PropertiesDrawer(input, c)
  {
    var framed := c.drawer(TrimStart(input));
    if framed.None? || framed.value.1.name != "PROPERTIES" {
      return None;
    }
    var (rest, drawer) := framed.value;
    var acc := CollectProperties(drawer.contents, c);
    r := Some((rest, acc));
  }

  /** The fold of `parse_properties_drawer`: one pair pushed onto the map per property line, in order. */
  method CollectProperties(contents: string, c: Collaborators) returns (acc: PropertiesMap)
    requires Valid(c)
    ensures acc.pairs == NodeProperties(contents, c)
  {
    ghost var all := NodeProperties(contents, c);
    acc := PropertiesMap.New();
    var body := contents;
    while true
      invariant acc.pairs + NodeProperties(body, c) == all
      decreases |body|
    {
      var property := ParseNodeProperty(body, c);
      if property.None? {
        break;
      }
      PropertyStep(acc.pairs, body, c);
      acc := PropertiesMap(acc.pairs + [property.value.1]);
      body := property.value.0;
    }
  }

  // ---------------------------------------------------------------------------
  // The whole headline
  // ---------------------------------------------------------------------------

  predicate IsStar(ch: char) {
    ch == '*'
  }

  /** The leading run of stars: every byte in it is `*`, the next is not, and a star-led text has one. */
  lemma StarRun(input: string)
    ensures var n := TakeWhile(input, IsStar);
      (forall i :: 0 <= i < n ==> input[i] == '*') && (n < |input| ==> input[n] != '*')
      && (input != [] && input[0] == '*' ==> n > 0)
  {
    var n := TakeWhile(input, IsStar);
    assert forall i :: 0 <= i < n ==> IsStar(input[i]);
  }

  /** What the headline line itself yields: level, keyword, priority, title text and tag group. */
  datatype HeadlineLine = HeadlineLine(
    level: nat,
    keyword: Option<string>,
    priority: Option<char>,
    raw: string,
    group: string)

  /**
    The first half of `parse_title`: the stars, the keyword step, the priority
    step, then the rest of the physical line, trimmed and split into title text
    and tag group.
   */
  function ParseHeadlineLine(input: string, config: Config, c: Collaborators): (r: Option<(string, HeadlineLine)>)
    requires Valid(c)
    requires |input| > 0 && input[0] == '*'
    ensures r.Some? ==> IsSuffix(r.value.0, input)
    ensures r.Some? ==> var h := r.value.1;
      0 < h.level <= |input| && (forall i :: 0 <= i < h.level ==> input[i] == '*')
      && (h.level < |input| ==> input[h.level] != '*')
    ensures r.Some? ==> var h := r.value.1;
      (h.keyword.Some? ==> IsTodoKeyword(config, h.keyword.value))
      && (h.priority.Some? ==> IsAsciiUpper(h.priority.value))
    ensures r.Some? ==> var h := r.value.1;
      (h.group == [] || IsTagLine(h.group))
      && IsTrimmed(h.raw)
    ensures var level := TakeWhile(input, IsStar);
      var (s2, keyword) := ParseKeyword(input[level..], config, c);
      var (s3, priority) := ParsePriority(s2);
      (r.Some? <==> c.line(s3).Some?)
      && (r.Some? ==> var (s4, line) := c.line(s3).value;
            r.value.0 == s4 && r.value.1 == HeadlineLine(level, keyword, priority, SplitTags(Trim(line)).0, SplitTags(Trim(line)).1))
  {
    var level := TakeWhile(input, IsStar);
    StarRun(input);
    var s1 := input[level..];
    var (s2, keyword) := ParseKeyword(s1, config, c);
    var (s3, priority) := ParsePriority(s2);
    match c.line(s3)
    case None => None
    case Some((s4, line)) =>
      var (raw, group) := SplitTags(Trim(line));
      assert IsSuffix(s2, s1);
      SuffixTransitive(s3, s2, s1);
      SuffixTransitive(s4, s3, s1);
      SuffixTransitive(s4, s1, input);
      Some((s4, HeadlineLine(level, keyword, priority, raw, group)))
  }

  /** The optional planning line after the headline line: the remainder and the record, if any. */
  function AfterPlanning(s4: string, c: Collaborators): (r: (string, Option<Planning>))
    requires Valid(c)
    ensures IsSuffix(r.0, s4)
    ensures r.1.Some? <==> c.planning(s4).Some?
    ensures r.1.Some? ==> r == (c.planning(s4).value.0, Some(c.planning(s4).value.1))
    ensures r.1.None? ==> r.0 == s4
  {
    match c.planning(s4)
    case Some((rest, p)) => (rest, Some(p))
    case None => (s4, None)
  }

  /** The optional property drawer after that: the remainder and the properties, empty when absent. */
  function AfterDrawer(s5: string, c: Collaborators): (r: (string, PropertiesMap))
    requires Valid(c)
    ensures IsSuffix(r.0, s5)
    ensures PropertiesDrawer(s5, c).Some? ==> r == PropertiesDrawer(s5, c).value
    ensures PropertiesDrawer(s5, c).None? ==> r == (s5, PropertiesMap.New())
  {
    match PropertiesDrawer(s5, c)
    case Some((rest, m)) => (rest, m)
    case None => (s5, PropertiesMap.New())
  }

  /**
    `parse_title`: the headline line, then an optional planning line, an
    optional property drawer and the blank lines after them. Returns the
    remaining input and the title together with its title text. It fails
    exactly when the headline line or the blank-line count fails.
   */
  function ParseTitle(input: string, config: Config, c: Collaborators): (r: Option<(string, (Title, string))>)
    requires Valid(c)
    requires |input| > 0 && input[0] == '*'
    ensures r.Some? ==> IsSuffix(r.value.0, input)
    ensures r.Some? ==> r.value.1.1 == r.value.1.0.raw
    ensures r.Some? ==> var t := r.value.1.0;
      0 < t.level <= |input| && (forall i :: 0 <= i < t.level ==> input[i] == '*')
      && (t.level < |input| ==> input[t.level] != '*')
    ensures r.Some? ==> var t := r.value.1.0;
      (t.keyword.Some? ==> IsTodoKeyword(config, t.keyword.value))
      && (t.priority.Some? ==> IsAsciiUpper(t.priority.value))
    ensures r.Some? ==> var t := r.value.1.0;
      (forall i :: 0 <= i < |t.tags| ==> t.tags[i] != [] && ':' !in t.tags[i])
      && IsTrimmed(t.raw)
    ensures r.Some? ==> var h := ParseHeadlineLine(input, config, c);
      var t := r.value.1.0;
      h.Some? && t.level == h.value.1.level && t.keyword == h.value.1.keyword && t.priority == h.value.1.priority
      && t.raw == h.value.1.raw && t.tags == TagList(h.value.1.group)
    ensures r.Some? ==> var s4 := ParseHeadlineLine(input, config, c).value.0;
      var t := r.value.1.0;
      var s5 := AfterPlanning(s4, c).0;
      (t.planning.Some? <==> c.planning(s4).Some?)
      && (t.planning.Some? ==> t.planning.value == c.planning(s4).value.1)
      && (PropertiesDrawer(s5, c).Some? ==> t.properties == PropertiesDrawer(s5, c).value.1)
      && (PropertiesDrawer(s5, c).None? ==> t.properties.IsEmpty())
    ensures var h := ParseHeadlineLine(input, config, c);
      h.Some? ==> var s6 := AfterDrawer(AfterPlanning(h.value.0, c).0, c).0;
        (r.Some? <==> c.blankLinesCount(s6).Some?)
        && (r.Some? ==> r.value.0 == c.blankLinesCount(s6).value.0
                        && r.value.1.0.postBlank == c.blankLinesCount(s6).value.1)
  {
    match ParseHeadlineLine(input, config, c)
    case None => None
    case Some((s4, h)) =>
      var (s5, planning) := AfterPlanning(s4, c);
      var (s6, properties) := AfterDrawer(s5, c);
      match c.blankLinesCount(s6)
      case None => None
      case Some((s7, postBlank)) =>
        SuffixTransitive(s6, s5, s4);
        SuffixTransitive(s7, s6, s4);
        SuffixTransitive(s7, s4, input);
        var t := Title(h.level, h.priority, TagList(h.group), h.keyword, h.raw, planning, properties, postBlank);
        Some((s7, (t, h.raw)))
  }

  /** The text the keyword step consumed: nothing, or spaces or tabs and then the keyword. */
  predicate KeywordText(t: string, keyword: Option<string>) {
    match keyword
    case None => t == []
    case Some(w) => |w| < |t| && t[|t| - |w|..] == w && forall i :: 0 <= i < |t| - |w| ==> IsSpaceOrTab(t[i])
  }

  /**
    The text the priority step consumed: nothing, or spaces or tabs, `[#X]`,
    and then exactly one run of spaces or tabs or one line ending.
   */
  predicate CookieText(t: string, priority: Option<char>) {
    match priority
    case None => t == []
    case Some(ch) => exists n :: 0 <= n < |t| && CookieAt(t, n, ch) && WhiteSpacesOrEol(t[n + 4..]) == Some([])
  }

  /**
    How a headline line splits its input: the stars end at `level`, the
    keyword text at `a`, the cookie text at `b`, and the line read from `b`
    leaves `rest` and gives the title text and tag group.
   */
  predicate LineParts(input: string, c: Collaborators, rest: string, h: HeadlineLine, a: nat, b: nat) {
    h.level <= a <= b <= |input| && (forall i :: 0 <= i < h.level ==> input[i] == '*')
    && KeywordText(input[h.level..a], h.keyword) && CookieText(input[a..b], h.priority)
    && c.line(input[b..]).Some? && c.line(input[b..]).value.0 == rest
    && SplitTags(Trim(c.line(input[b..]).value.1)) == (h.raw, h.group)
  }

  /**
    Reconstruction: a parsed headline line is its stars, the keyword text,
    the cookie text and the line the line parser read, in that order.
   */
  lemma HeadlineLineParts(input: string, config: Config, c: Collaborators)
    requires Valid(c) && |input| > 0 && input[0] == '*'
    requires ParseHeadlineLine(input, config, c).Some?
    ensures var r := ParseHeadlineLine(input, config, c).value;
      exists a, b :: LineParts(input, c, r.0, r.1, a, b)
  {
    var r := ParseHeadlineLine(input, config, c).value;
    var h := r.1;
    var level := h.level;
    var s1 := input[level..];
    var (s2, keyword) := ParseKeyword(s1, config, c);
    var (s3, priority) := ParsePriority(s2);
    KeywordPart(s1, s2, keyword, config, c);
    CookiePart(s2, s3, priority);
    PartsOfSteps(input, level, keyword, priority, s2, s3);
    assert LineParts(input, c, r.0, h, |input| - |s2|, |input| - |s3|);
  }

  /** The pieces the three steps consumed, put back in place in the input. */
  lemma PartsOfSteps(input: string, level: nat, keyword: Option<string>, priority: Option<char>, s2: string, s3: string)
    requires level <= |input|
    requires var s1 := input[level..];
      |s2| <= |s1| && s1[|s1| - |s2|..] == s2 && KeywordText(s1[..|s1| - |s2|], keyword)
    requires |s3| <= |s2| && s2[|s2| - |s3|..] == s3 && CookieText(s2[..|s2| - |s3|], priority)
    ensures level <= |input| - |s2| <= |input| - |s3| <= |input|
    ensures KeywordText(input[level..|input| - |s2|], keyword)
    ensures CookieText(input[|input| - |s2|..|input| - |s3|], priority)
    ensures input[|input| - |s3|..] == s3
  {
    KeywordPiece(input, level, s2, keyword);
    CookiePiece(input, |input| - |s2|, s3, priority);
  }

  /** `KeywordText` read in `input[i..]` is the same text read in `input`. */
  lemma KeywordPiece(input: string, i: nat, rest: string, keyword: Option<string>)
    requires i <= |input| && |rest| <= |input| - i && input[i..][|input| - i - |rest|..] == rest
    requires KeywordText(input[i..][..|input| - i - |rest|], keyword)
    ensures KeywordText(input[i..|input| - |rest|], keyword) && input[|input| - |rest|..] == rest
  {
    SuffixPieces(input, i, rest);
  }

  /** `CookieText` read in `input[i..]` is the same text read in `input`. */
  lemma CookiePiece(input: string, i: nat, rest: string, priority: Option<char>)
    requires i <= |input| && |rest| <= |input| - i && input[i..][|input| - i - |rest|..] == rest
    requires CookieText(input[i..][..|input| - i - |rest|], priority)
    ensures CookieText(input[i..|input| - |rest|], priority) && input[|input| - |rest|..] == rest
  {
    SuffixPieces(input, i, rest);
  }

  /** When `rest` ends `input[i..]`, the text between `i` and `rest` is the head of `input[i..]`. */
  lemma SuffixPieces(input: string, i: nat, rest: string)
    requires i <= |input| && |rest| <= |input| - i && input[i..][|input| - i - |rest|..] == rest
    ensures input[i..|input| - |rest|] == input[i..][..|input| - i - |rest|] && input[|input| - |rest|..] == rest
  {
  }

  /** The keyword step over `s1` consumed `KeywordText`: `s1` is that text followed by `s2`. */
  lemma KeywordPart(s1: string, s2: string, keyword: Option<string>, config: Config, c: Collaborators)
    requires Valid(c) && ParseKeyword(s1, config, c) == (s2, keyword)
    ensures |s2| <= |s1| && s1[|s1| - |s2|..] == s2 && KeywordText(s1[..|s1| - |s2|], keyword)
  {
    if keyword.Some? {
      var w := keyword.value;
      var g := |s1| - |s2| - |w|;
      assert s1 == s1[..g] + w + s2;
      assert s1[..|s1| - |s2|] == s1[..g] + w;
    }
  }

  /** The priority step over `s2` consumed `CookieText`: `s2` is that text followed by `s3`. */
  lemma CookiePart(s2: string, s3: string, priority: Option<char>)
    requires ParsePriority(s2) == (s3, priority)
    ensures |s3| <= |s2| && s2[|s2| - |s3|..] == s3 && CookieText(s2[..|s2| - |s3|], priority)
  {
    if priority.Some? {
      PriorityRemainder(s2);
      var n := TakeWhile(s2, IsSpaceOrTab);
      CookieHead(s2, n, priority.value, s3);
    }
  }

  /** Cutting off what follows the blanks or line ending after a cookie leaves a cookie text. */
  lemma CookieHead(s: string, n: nat, ch: char, rest: string)
    requires CookieAt(s, n, ch) && WhiteSpacesOrEol(s[n + 4..]) == Some(rest)
    ensures |rest| <= |s| && s[|s| - |rest|..] == rest
    ensures var t := s[..|s| - |rest|]; CookieAt(t, n, ch) && WhiteSpacesOrEol(t[n + 4..]) == Some([])
  {
    var x := s[n + 4..];
    EolPrefix(x);
    var t := s[..|s| - |rest|];
    assert t[n + 4..] == x[..|x| - |rest|];
    assert forall i :: 0 <= i < n ==> t[i] == s[i];
    assert t[n] == '[' && t[n + 1] == '#' && t[n + 2] == ch && t[n + 3] == ']';
  }

  /** What `WhiteSpacesOrEol` consumes is itself one run of blanks or one line ending. */
  lemma EolPrefix(x: string)
    requires WhiteSpacesOrEol(x).Some?
    ensures var y := WhiteSpacesOrEol(x).value;
      WhiteSpacesOrEol(x[..|x| - |y|]) == Some([])
  {
    var y := WhiteSpacesOrEol(x).value;
    var z := x[..|x| - |y|];
    if IsSpaceOrTab(x[0]) {
      var m := TakeWhile(x, IsSpaceOrTab);
      assert |z| == m;
      TakeWhileAtLeast(z, IsSpaceOrTab, m);
    } else if x[0] == '\n' {
      assert z == "\n";
    } else {
      assert z == "\r\n";
    }
  }
  /**
    An unmatched keyword or priority cookie is not consumed, so the title text
    is read from the same place: a word that opens the line, after its leading
    whitespace, also opens the title text.
   */
  lemma UnmatchedWordsStayInRaw(input: string, config: Config, c: Collaborators, w: string)
    requires Valid(c) && |input| > 0 && input[0] == '*'
    requires ParseHeadlineLine(input, config, c).Some?
    requires w != [] && forall i :: 0 <= i < |w| ==> NotWhitespace(w[i])
    requires var level := TakeWhile(input, IsStar);
      var s3 := ParsePriority(ParseKeyword(input[level..], config, c).0).0;
      c.line(s3).Some? && IsPrefix(w, TrimStart(c.line(s3).value.1))
    ensures IsPrefix(w, ParseHeadlineLine(input, config, c).value.1.raw)
  {
    var level := TakeWhile(input, IsStar);
    var s3 := ParsePriority(ParseKeyword(input[level..], config, c).0).0;
    var line := c.line(s3).value.1;
    WordSurvivesTrim(line, w);
    WordOpensHead(Trim(line), w);
  }

  /** Trimming keeps a word of non-whitespace bytes that opens the text after its leading whitespace. */
  lemma WordSurvivesTrim(s: string, w: string)
    requires w != [] && (forall i :: 0 <= i < |w| ==> NotWhitespace(w[i])) && IsPrefix(w, TrimStart(s))
    ensures IsPrefix(w, Trim(s))
  {
    var a := TakeWhile(s, IsWhitespace);
    var r := Trim(s);
    assert TrimStart(s) == s[a..];
    var k := |w| - 1;
    assert s[a + k] == w[k];
    assert |w| <= |r|;
    assert r[..|w|] == s[a..a + |w|] == w;
  }

  /** The tag split keeps a word of non-whitespace bytes that opens the line in the title text. */
  lemma WordOpensHead(x: string, w: string)
    requires w != [] && (forall i :: 0 <= i < |w| ==> NotWhitespace(w[i])) && IsPrefix(w, x)
    ensures IsPrefix(w, SplitTags(x).0)
  {
    var r := SplitTags(x);
    if r.1 != [] {
      var i := |x| - |r.1| - 1;
      assert IsSpaceOrTab(x[i]);
      assert forall j :: 0 <= j < |w| ==> x[j] == w[j];
      HeadKeepsWord(x, i, w);
    }
  }

  /** The trimmed text before a later index keeps a word that opens the text. */
  lemma HeadKeepsWord(x: string, i: nat, w: string)
    requires w != [] && (forall j :: 0 <= j < |w| ==> NotWhitespace(w[j])) && IsPrefix(w, x)
    requires |w| <= i <= |x|
    ensures IsPrefix(w, Trim(x[..i]))
  {
    var head := x[..i];
    assert TakeWhile(head, IsWhitespace) == 0 by {
      assert NotWhitespace(head[0]) by { assert head[0] == w[0]; }
    }
    var r := Trim(head);
    var k := |w| - 1;
    assert head[k] == w[k];
    assert |w| <= |r|;
    assert r[..|w|] == head[..|w|] == w;
  }
}
