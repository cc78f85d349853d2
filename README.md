# Headline titles and inline objects of an Org-mode parser, in Dafny

This project models two parts of an Org-mode parser.

- **The headline title parser** (`src/elements/title.rs`). `parse_title`
  reads one headline line: the stars that give its level, an optional todo
  keyword, an optional `[#X]` priority cookie, the title text and a trailing
  `:tag:tag:` group. It then reads an optional planning line, an optional
  `PROPERTIES` drawer and the blank lines that follow. The file also holds the
  `Title` record with `is_commented`, `is_archived` and its `Default`, and
  the `PropertiesMap` of a headline with `new`, `is_empty`, `from_iter` and
  `into_hash_map`.
- **The inline object scanner** (`src/objects/mod.rs`). `Object::next_2`
  walks a span of text and returns its first inline object. It returns one of
  three shapes: the object alone, the text before the object and then the
  object, or the whole span as text.

The modules are:

- `Wrappers`: `Option`.
- `Text`: the string helpers of the Rust standard library and `memchr` that
  the parsers call. These are `trim`, `trim_start`, `trim_end_matches`, a
  first-index search and a last-index search.
- `Combinators`: the nom combinators the title parser calls. `space1` and
  `line_ending` are defined in full. `line`, `one_word`, `blank_lines_count`,
  `Planning::parse` and `parse_drawer_without_blank` are parameters, in a
  `Collaborators` record. `Valid` states what the parser relies on from each
  of them. `one_word` returns a non-empty word followed by the remainder,
  which together are exactly its input. `line` returns a prefix of its input
  as the line and a suffix as the remainder. The others return a suffix of
  their input as the remainder.
- `Headline`: the title parser.
- `Objects`: the object scanner. The per-construct parsers are parameters, in
  a `Parsers` record:
  - each structural parser consumes a non-empty prefix of its slice;
  - the emphasis parser returns the offset of the closing marker, inside its
    slice. The model also assumes that the byte at that offset is the
    marker itself. That is what the `end` field's comment in
    `src/objects/mod.rs:35` says; the emphasis parser's code is not part of
    this model.
- `HeadlineExamples` and `ObjectsExamples`: the unit-test vectors of the two
  files, stated as lemmas. The headline vectors are proved end to end, from
  the input string to the whole `Title`. They use `Sample()`, a small
  stand-in for `line`, `one_word` and `blank_lines_count` with the behaviour
  their names describe, and no planning line or drawer. The object vectors
  name the emphasis parser's answer on the slice it is handed.

The title parser is written as functions, because the source threads the
remaining input through a chain of combinators. Two parts of it are methods,
because the source works by mutation:

- `ParsePropertiesDrawer` frames the drawer, and `CollectProperties` pushes
  one pair per property line. Together they are proved equal to the function
  `PropertiesDrawer`.
- `IntoHashMap` inserts the pairs one by one.

`Next2` is a method with the source's loop. It keeps the mutable scan
position, jumps from marker byte to marker byte, and leaves at the first
successful dispatch. It is proved equal to `Scan`, a reference definition: it
lists the dispatch outcome at every candidate position (`Hits`) and takes the
first one that succeeded (`FirstSome`).

Notes on the model:

- **Trailing `+` in property names.** The property name is the text between
  the first two colons passed through `trim_end_matches('+')`
  (`src/elements/title.rs:280-281`), which strips every trailing `+`, not
  just one. See `Headline.PlusTrimmed` and `Headline.NodePropertyFields`.
- **Head-of-span border byte.** The `brk!` macro decides between "object
  alone" and "text, then object" on the unshifted scan position `pos`
  (`src/objects/mod.rs:58-66`). When the span starts with a border byte (a
  space, for example) and the object starts at byte 1, the object is returned
  alone. Byte 0 is then in no returned part. `Objects.LoneObjectAtHead`
  states this exactly, and `ObjectsExamples.BorderDroppedAtHead` shows it on
  ` *bold*`. The model keeps this behaviour as written.
- **A comma is a border only at the head of a span.** The border shift
  lists `,` (`src/objects/mod.rs:112`), but the bytes the scan jumps to
  (`src/objects/mod.rs:54`) do not include it. So a comma is only ever looked
  at as position 0. `ObjectsExamples.CommaNotABorder` shows that `x,*bold*`
  is all text, whatever the emphasis parser answers.
- **A priority cookie at the very end of the input is not a priority.**
  `line_ending` on complete input fails on the empty string. So `[#A]` with
  nothing after it gives no priority, and the cookie stays in the title text.
  `Headline.PriorityCookieIff` states the rule.
- **`level > 0`.** The source asserts `level > 0` only in debug builds. The
  model takes it as the precondition `input[0] == '*'` of `ParseHeadlineLine`
  and `ParseTitle`.

## Model

| member | source | states |
|---|---|---|
| Text.TakeWhile | src/elements/title.rs:189 | nom `take_while`: the length of the longest prefix whose bytes all satisfy the predicate; the byte after it does not |
| Text.Trim | src/elements/title.rs:211 | `str::trim`: the result is the input minus its leading and trailing whitespace, and it is trimmed |
| Text.TrimStart | src/elements/title.rs:261 | `str::trim_start`: a suffix of the input; every dropped byte is whitespace, and the result does not start with whitespace |
| Text.TrimEndMatches | src/elements/title.rs:280-281 | `trim_end_matches('+')`: a prefix; every dropped byte is the character, and the result does not end with it |
| Text.FirstIndex | src/elements/title.rs:280 | `take_until(":")`: the index of the first occurrence, and no earlier one; `None` exactly when the character is absent |
| Text.LastIndexWhere | src/elements/title.rs:214 | `memrchr2(b' ', b'\t', ..)`: the index of the last matching byte; no later byte matches; `None` exactly when none matches |
| Combinators.Space1 | src/elements/title.rs:193-194 | nom `space1`: fails exactly on an empty input or one not starting with a space or tab; otherwise consumes the whole leading run of spaces and tabs |
| Combinators.LineEnding | src/elements/title.rs:180-182 | nom `line_ending`: matches exactly `\n` or `\r\n` at the start and consumes exactly that; fails on the empty input |
| Headline.IsTodoKeyword | src/elements/title.rs:195-198 | with both keyword lists empty, no word is a keyword |
| Headline.PropertiesMap.New | src/elements/title.rs:135-137 | a new map is empty |
| Headline.PropertiesMap.IsEmpty | src/elements/title.rs:139-141 | empty exactly when it holds no pair |
| Headline.PropertiesMap.FromIter | src/elements/title.rs:172-178 | keeps every pair, duplicates included, in iteration order; empty exactly when the input is empty |
| Headline.PropertiesMap.IntoHashMap | src/elements/title.rs:155-157 | one key per distinct name, and each key maps to the value of the last pair with that name |
| Headline.Snoc | src/elements/title.rs:155-157 | appending a pair adds its name to the key set and makes its value the last one for that name |
| Headline.LastValue | src/elements/title.rs:155-157 | the value of a pair named `k` with no later pair named `k`; `None` exactly when no pair is named `k` |
| Headline.Title.IsArchived | src/elements/title.rs:83-85 | holds exactly when some tag equals `ARCHIVE` |
| Headline.Title.IsCommented | src/elements/title.rs:88-91 | holds exactly when the first whitespace-delimited word of the title text is `COMMENT` |
| Headline.CommentedByLeadingWord | src/elements/title.rs:88-91 | "starts with `COMMENT` and has length 7 or whitespace at index 7" is the same as "the leading word is `COMMENT`" |
| Headline.Title.Default | src/elements/title.rs:111-124 | level 1 and no blank lines after it; no keyword, priority, planning, tags or title text; empty properties; neither commented nor archived |
| Headline.ParseKeyword | src/elements/title.rs:193-199 | a keyword is returned only if it equals an entry of one of the two configured lists; on no match nothing is consumed; on a match the input is a non-empty blank run, then the keyword (which opens with a non-blank byte and is `one_word`'s answer right after the run), then the remainder |
| Headline.KeywordRead | src/elements/title.rs:193-199 | conversely, a non-empty blank run followed by a word that `one_word` reads and that is a configured keyword is always read as the keyword, leaving `one_word`'s remainder |
| Headline.WhiteSpacesOrEol | src/elements/title.rs:180-182 | matches exactly when the input starts with a space, a tab, `\n` or `\r\n`; the remainder follows the whole blank run, or the one line ending |
| Headline.ParsePriority | src/elements/title.rs:201-209 | a priority is an upper-case ASCII letter; on no match nothing is consumed |
| Headline.PriorityRemainder | src/elements/title.rs:201-209 | a recognised cookie sits right after the leading blank run, and the remainder is the text after the blanks or line ending that follow the cookie |
| Headline.PriorityCookieIff | src/elements/title.rs:201-209 | the priority is `ch` exactly when the text is blanks, `[#`, `ch` (upper case), `]`, then a blank or a line ending |
| Headline.CookieAfterSpaces | src/elements/title.rs:201-209 | a cookie after a run of blanks is found, and the run is the whole leading blank run |
| Headline.IsTagLine | src/elements/title.rs:250-257 | a tag group is longer than two bytes and holds no whitespace, so it is one token |
| Headline.SplitTags | src/elements/title.rs:213-217 | the group is empty or a tag line; when present, it is the text after a blank, and the title text is what precedes that blank, trimmed; when absent, the title text is the whole line; a trimmed line gives a trimmed title text |
| Headline.TagGroupIsLastToken | src/elements/title.rs:213-217 | a group is found exactly when the token after the last space or tab is a tag line (longer than 2, colon at both ends, only alphanumerics and `_ @ # % :`) |
| Headline.Split | src/elements/title.rs:219-220 | `str::split(':')`: at least one piece, and no piece holds the separator |
| Headline.DropEmpty | src/elements/title.rs:221 | keeps only non-empty pieces, each from the input |
| Headline.NoEmptyPiece | src/elements/title.rs:221 | a list with no empty piece is unchanged |
| Headline.DropEmptyAppend | src/elements/title.rs:221 | dropping empty pieces distributes over concatenation |
| Headline.TagList | src/elements/title.rs:219-223 | no tag is empty or contains `:` |
| Headline.SplitJoin | src/elements/title.rs:219-220 | splitting tags joined with a colon after each gives the tags and one empty piece |
| Headline.TagListRoundTrip | src/elements/title.rs:219-223 | writing non-empty, colon-free tags as `:t1:t2:` and parsing the group gives the same tags back, in order |
| Headline.TagListIdempotent | src/elements/title.rs:219-223 | parsing the group rebuilt from parsed tags gives the same tags |
| Headline.ParseNodeProperty | src/elements/title.rs:276-285 | a match consumes at least two bytes and returns a suffix; the name holds no colon and does not end with `+`; the value is trimmed |
| Headline.NodePropertyIff | src/elements/title.rs:276-285 | after the blank lines and indentation, a property line matches exactly when it has a colon, a name field up to the next colon, and then a line |
| Headline.NodePropertyFields | src/elements/title.rs:276-285 | the name is the field between the first two colons without all of its trailing `+`s; the value is the rest of the line, trimmed; the remainder follows that line |
| Headline.NameFieldMatches | src/elements/title.rs:279-283 | a colon, a field up to the next colon, and a line are enough for a match |
| Headline.FirstColon | src/elements/title.rs:280 | the name field ends at the first colon after the opening one |
| Headline.NodeProperties | src/elements/title.rs:265-272 | the repeated property lines: at most half as many pairs as bytes, every pair well formed |
| Headline.PropertyStep | src/elements/title.rs:265-272 | each property line consumes input, and its pair comes right before the pairs of the lines after it |
| Headline.PropertiesDrawer | src/elements/title.rs:260-274 | matches exactly when the drawer framing matches after leading whitespace and the drawer is named exactly `PROPERTIES`; the pairs are the drawer body's property lines in order, and zero pairs is a match |
| Headline.ParsePropertiesDrawer | src/elements/title.rs:260-274 | framing, name check and fold together return exactly `PropertiesDrawer` |
| Headline.CollectProperties | src/elements/title.rs:265-272 | the fold pushes one pair per property line and ends holding exactly the drawer body's property lines, in order |
| Headline.StarRun | src/elements/title.rs:189-191 | the level counts exactly the leading `*` bytes, and a star-led line has level at least 1 |
| Headline.ParseHeadlineLine | src/elements/title.rs:189-223 | the level is the leading run of `*`; the keyword and priority are the answers of the keyword and priority steps, in that order; the line is read where the priority step stopped; the title text and group are the tag split of that line, trimmed; it fails exactly when `line` fails |
| Headline.AfterPlanning | src/elements/title.rs:225-227 | when the planning parser matches, its remainder and its record; otherwise the input unchanged and no record; the remainder is a suffix of the input |
| Headline.AfterDrawer | src/elements/title.rs:229-236 | when a `PROPERTIES` drawer matches, its remainder and its properties; otherwise the input unchanged and empty properties; the remainder is a suffix of the input |
| Headline.ParseTitle | src/elements/title.rs:184-248 | level, keyword, priority and title text are those of the headline line; the tags are the tag list of its group; a planning record is attached exactly when the planning parser matches right after the line; the properties are those of a `PROPERTIES` drawer right after that, and empty when there is none; the second result equals the title's text; when the headline line is read, the title is returned exactly when `blank_lines_count` answers after the planning line and drawer, and then the remainder and `post_blank` are its answer; the remainder is a suffix of the input |
| Headline.HeadlineLineParts | src/elements/title.rs:189-211 | reconstruction: the input is the stars, then the text the keyword step consumed (blanks and the keyword, or nothing), then the cookie text (blanks, `[#X]` and one blank run or line ending, or nothing), then the line and the remainder |
| Headline.KeywordPart | src/elements/title.rs:193-199 | the keyword step's input is the text it consumed followed by its remainder |
| Headline.CookiePart | src/elements/title.rs:201-209 | the priority step's input is the cookie text it consumed followed by its remainder |
| Headline.UnmatchedWordsStayInRaw | src/elements/title.rs:193-217 | a whitespace-free word that opens the line read after the keyword and priority steps (past its leading blanks) also opens the title text, so a rejected keyword or cookie reaches the title text when the line read after the two steps opens with it |
| Headline.TrimmedHead | src/elements/title.rs:211-215 | the trimmed text before the tag separator is a prefix of a trimmed line |
| Headline.TakeWhileAtLeast | src/elements/title.rs:189 | a run of `k` matching bytes makes the leading run at least `k` long |
| HeadlineExamples.KeywordThen | src/elements/title.rs:193-199 | a blank, a configured keyword and whitespace: the keyword is read and the blank and keyword are consumed (an instance of `KeywordRead`) |
| HeadlineExamples.WordNotKeyword | src/elements/title.rs:193-199 | a blank, a word that is not configured and whitespace: no keyword, nothing consumed |
| HeadlineExamples.EmptyConfigNeverMatches | src/elements/title.rs:193-199 | with both lists empty the keyword step never matches |
| HeadlineExamples.CookieLetterNotUpper | src/elements/title.rs:201-209 | a cookie whose letter is not upper case is not a priority, and nothing is consumed |
| HeadlineExamples.CookieNotFollowedByBlank | src/elements/title.rs:201-209 | a cookie followed by neither a blank nor a line ending is not a priority, and nothing is consumed |
| HeadlineExamples.FullHeadlineLine | src/elements/title.rs:291-309 | `**** DONE [#A] COMMENT Title :tag:a2%:` gives level 4, `DONE`, `A`, `COMMENT Title` and the group `:tag:a2%:` |
| HeadlineExamples.FullHeadline | src/elements/title.rs:291-309 | the same input gives the whole test `Title`, with tags `tag` and `a2%`, and the same title text |
| HeadlineExamples.PlainTitle | src/elements/title.rs:193-217 | stars, then a word that is neither a keyword nor a cookie and a line with no group: no keyword, priority or tag, and the title text is the whole line, starting with that word |
| HeadlineExamples.KeywordNoPriority | src/elements/title.rs:193-217 | stars, a keyword, then a line the priority step rejects: the keyword is read and the rejected text is the title text |
| HeadlineExamples.KeywordPriorityTitle | src/elements/title.rs:193-217 | stars, a keyword, `[#A]` and a line with no group: keyword, priority `A` and the line as the title text |
| HeadlineExamples.MixedCaseKeywordRejected | src/elements/title.rs:310-328 | `**** ToDO [#A] COMMENT Title` gives the whole test `Title`: level 4, no keyword, no priority, title text `ToDO [#A] COMMENT Title` |
| HeadlineExamples.DigitKeywordRejected | src/elements/title.rs:329-347 | `**** T0DO [#A] COMMENT Title` gives the whole test `Title`, with title text `T0DO [#A] COMMENT Title` |
| HeadlineExamples.CookieDigitRejected | src/elements/title.rs:348-366 | `**** DONE [#1] COMMENT Title` gives keyword `DONE`, no priority and title text `[#1] COMMENT Title` |
| HeadlineExamples.CookieLetterRejected | src/elements/title.rs:367-385 | `**** DONE [#a] COMMENT Title` gives keyword `DONE`, no priority and title text `[#a] COMMENT Title` |
| HeadlineExamples.CookieWithoutBlankRejected | src/elements/title.rs:387-406 | `** DONE [#B]::` gives level 2, keyword `DONE`, no priority, no tags and title text `[#B]::` |
| HeadlineExamples.UnclosedGroupStaysInTitle | src/elements/title.rs:408-426 | `**** Title :tag:a2%` gives no tags and title text `Title :tag:a2%` |
| HeadlineExamples.UnopenedGroupStaysInTitle | src/elements/title.rs:427-445 | `**** Title tag:a2%:` gives no tags and title text `Title tag:a2%:` |
| HeadlineExamples.NoClosingColon | src/elements/title.rs:213-217 | a line that does not end with a colon has no tag group |
| HeadlineExamples.NoKeywordsConfigured | src/elements/title.rs:446-471 | `**** DONE Title` with both keyword lists empty gives no keyword and title text `DONE Title` |
| HeadlineExamples.CustomKeyword | src/elements/title.rs:472-496 | `**** TASK [#A] Title` with `TASK` configured gives keyword `TASK`, priority `A` and title text `Title` |
| HeadlineExamples.CustomIdDrawer | src/elements/title.rs:499-510 | with the test drawer's framing given, the drawer yields exactly the pair (`CUSTOM_ID`, `id`) |
| HeadlineExamples.CustomIdProperty | src/elements/title.rs:276-285 | the line `   :CUSTOM_ID: id` yields (`CUSTOM_ID`, `id`) and consumes its line ending |
| HeadlineExamples.TagsOfGroup | src/elements/title.rs:219-223 | the group `:tag:a2%:` gives the tags `tag` and `a2%` |
| Objects.IsMarker | src/objects/mod.rs:54 | no byte the scan jumps to opens a one-byte construct |
| Objects.ShiftsAt | src/objects/mod.rs:109-114 | a border byte that shifts the one-byte dispatch never selects a structural construct |
| Objects.Structural | src/objects/mod.rs:70-116 | an object is found exactly when the three bytes at `pos` select a kind (`@@`, `{{{`, `<<<`, `<<` not before a newline, `[fn`, `[[`, other `[`) and that kind's parser answers; the object wraps that answer and consumes a non-empty part of the rest; otherwise the dispatch goes on at `pos + 1` after a space, `"`, `,`, `(`, newline or a `{` not opening `{{{`, and at `pos` otherwise |
| Objects.SpanArm | src/objects/mod.rs:119-138 | `*`, `+`, `/`, `_`: bold, strike, italic or underline exactly when the emphasis parser answers; the span carries its offset, closes with the same marker and consumes 1 |
| Objects.LeafArm | src/objects/mod.rs:139-148 | `=`, `~`: verbatim or code exactly when the emphasis parser answers `end`; the leaf holds the bytes strictly between the markers and consumes `end + 1` |
| Objects.CallOrSourceArm | src/objects/mod.rs:149-158 | `c`, `s`: inline call or inline source exactly when that parser answers, with its length |
| Objects.OneByte | src/objects/mod.rs:118-160 | an object is found exactly when the byte at `pre` selects a kind and that kind's parser answers, with the results of the three arms |
| Objects.CloseAt | src/objects/mod.rs:119-148 | an emphasis span found at `pre` closes with the same marker, inside the span |
| Objects.Shifted | src/objects/mod.rs:68-114 | the one-byte dispatch looks at `pos + 1` exactly when the border shift applies, and at `pos` otherwise |
| Objects.Attempt | src/objects/mod.rs:68-160 | a structural object selected at `pos` wins; only when no structural parser answers is the one-byte table consulted, at the shifted position, and its answer is then the result; a hit at `pos + 1` needs a border byte |
| Objects.Shape | src/objects/mod.rs:58-66 | `brk!`: the object alone exactly when the unshifted position is 0; otherwise the text up to the object's start, whose length is that start, then the object |
| Objects.Hits | src/objects/mod.rs:56-170 | one outcome per scan position below `len - 2`: the dispatch there when the position is a candidate, none otherwise |
| Objects.FirstSome | src/objects/mod.rs:57-171 | the first position at or after `i` holding an outcome, with that outcome; none before it; `None` exactly when no position holds one |
| Objects.FirstSomeAt | src/objects/mod.rs:57-171 | an outcome with none before it is the one found |
| Objects.Scan | src/objects/mod.rs:47-170 | the length is within the span; with two parts, the first is the text up to the object's start and the object stays inside the span |
| Objects.Next2 | src/objects/mod.rs:47-172 | the scanning loop returns exactly `Scan` |
| Objects.WholeTextIff | src/objects/mod.rs:50-170 | the whole span is one text run exactly when it has at most 2 bytes or no candidate position dispatches |
| Objects.FirstSuccessWins | src/objects/mod.rs:58-66 | the first dispatching candidate decides: alone at position 0, otherwise the text up to its start, then the object |
| Objects.OneByteNeedsBorder | src/objects/mod.rs:109-160 | past position 0, a one-byte construct is found only right after a border byte |
| Objects.LoneObjectAtHead | src/objects/mod.rs:58-66 | a lone object comes from position 0, and starts at byte 1 exactly when byte 0 is a border byte |
| Objects.SkipToMarker | src/objects/mod.rs:162-167 | after a failed position, no position before the next marker byte dispatches, so the first success is the same from that marker on |
| Objects.SkipNones | src/objects/mod.rs:162-167 | positions with no outcome can be skipped without changing the first success |
| Objects.FindMarker | src/objects/mod.rs:162-166 | the index of the first marker byte at or after `from`, or the length when there is none |
| Objects.ShapedAt | src/objects/mod.rs:58-66 | once the search reaches a dispatching candidate, the `brk!` shape built from it is the scan's answer |
| ObjectsExamples.BoldAt | src/objects/mod.rs:109-123 | a `*` at `pos`, or after a border byte at `pos`, whose emphasis parser answers gives a bold hit |
| ObjectsExamples.VerbatimAfterBorder | src/objects/mod.rs:109-143 | after a border byte, an `=` whose closing marker is `e` bytes on gives a verbatim leaf of length `e + 1` |
| ObjectsExamples.BoldAlone | src/objects/mod.rs:178 | `*bold*` gives `(Bold(5), 1, None)` |
| ObjectsExamples.VerbatimAfterText | src/objects/mod.rs:179-186 | `Normal =verbatim=` gives the text `Normal ` of length 7, then `Verbatim("verbatim")` of length 10 |
| ObjectsExamples.BorderKeptInsideSpan | src/objects/mod.rs:58-66 | in `x *bold*` the space stays in the text before the bold span |
| ObjectsExamples.BorderDroppedAtHead | src/objects/mod.rs:58-66 | ` *bold*` gives the same result as `*bold*`: the leading space is in no part |
| ObjectsExamples.CommaNotABorder | src/objects/mod.rs:54-170 | `x,*bold*` is all text: a comma past the head is never a scan position, so it never shifts |

## Left out

- The per-construct inline parsers (snippet, macro, radio target, target,
  footnote reference, link, cookie, inline call, inline source, emphasis) are
  parameters with bound contracts. Their grammars are not part of this model.
- `line`, `one_word`, `blank_lines_count`, `Planning::parse` and
  `parse_drawer_without_blank` are parameters whose contracts only say which
  part of the input they consume. Their grammars are not part of this model.
  The test vectors use small stand-ins for them.
- The `Planning` record is opaque. The timestamp accessors `closed`,
  `scheduled` and `deadline` only project its fields, so they are left out.
- `Title::parse` only discards the error of `parse_title`, so it is left out.
- `into_owned`, `Cow` and lifetimes do not change any value.
- `iter`, `iter_mut` and `into_iter` are plain views of the pairs.
- `into_index_map` is feature-gated, and so is its order test
  (`src/elements/title.rs:512-551`). The model keeps the pairs in order as a
  sequence instead.
- `HashMap` iteration order is unspecified. `IntoHashMap` returns a map, with
  no order.
- Serde attributes do not change parsing.
- Text is ASCII. `trim`, `char::is_whitespace` and `char::is_alphanumeric`
  are their ASCII versions. UTF-8 char boundaries are not modelled. They
  can be hit: when no object is found at position 0, `next_2` slices
  `&src[pos + 1..]` (`src/objects/mod.rs:162-163`), which lands inside the
  first character when it is multi-byte (a span opening with `é`), and the
  source then panics.
- The SIMD marker search (`ascii_chars!`) is a linear scan.
