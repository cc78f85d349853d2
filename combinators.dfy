/**
  The parsing combinators the title parser leans on.

  nom's own `space1` and `line_ending` have public, fixed meanings and are given
  bodies here. The crate's `line`, `one_word` and `blank_lines_count`, the planning
  parser and the drawer framing parser are not part of this model: they are passed
  in as a `Collaborators` record, and `Valid` states the only thing the title parser
  relies on, namely that each of them consumes a prefix of its input and returns the
  remainder.
 */
module Combinators {
  import opened Wrappers
  import opened Text

  /** The planning record (CLOSED / SCHEDULED / DEADLINE timestamps); its fields are not modelled. */
  datatype Planning = Planning(source: string)

  /** A drawer's framing: its declared name and its body text. */
  datatype Drawer = Drawer(name: string, contents: string)

  /** Every function returns `Some((remainder, value))` on a match and `None` otherwise. */
  datatype Collaborators = Collaborators(
    line: string -> Option<(string, string)>,
    oneWord: string -> Option<(string, string)>,
    blankLinesCount: string -> Option<(string, nat)>,
    planning: string -> Option<(string, Planning)>,
    drawer: string -> Option<(string, Drawer)>
  )

  /** `line`: the line it returns is a prefix of the input, the remainder a suffix. */
  ghost predicate LineOk(f: string -> Option<(string, string)>) {
    forall s :: f(s).Some? ==> IsSuffix(f(s).value.0, s) && IsPrefix(f(s).value.1, s)
  }

  /** `one_word`: a non-empty word followed by the remainder is exactly the input. */
  ghost predicate WordOk(f: string -> Option<(string, string)>) {
    forall s :: f(s).Some? ==> |f(s).value.1| > 0 && s == f(s).value.1 + f(s).value.0
  }

  ghost predicate CountOk(f: string -> Option<(string, nat)>) {
    forall s :: f(s).Some? ==> IsSuffix(f(s).value.0, s)
  }

  ghost predicate PlanningOk(f: string -> Option<(string, Planning)>) {
    forall s :: f(s).Some? ==> IsSuffix(f(s).value.0, s)
  }

  ghost predicate DrawerOk(f: string -> Option<(string, Drawer)>) {
    forall s :: f(s).Some? ==> IsSuffix(f(s).value.0, s)
  }

  ghost predicate Valid(c: Collaborators) {
    LineOk(c.line) && WordOk(c.oneWord) && CountOk(c.blankLinesCount)
    && PlanningOk(c.planning) && DrawerOk(c.drawer)
  }

  /** nom `space1`: one or more spaces or tabs, as many as there are; the remainder. */
  function Space1(s: string): (r: Option<string>)
    ensures r.None? <==> (s == [] || !IsSpaceOrTab(s[0]))
    ensures r.Some? ==> IsSuffix(r.value, s) && |r.value| < |s|
    ensures r.Some? ==> forall i :: 0 <= i < |s| - |r.value| ==> IsSpaceOrTab(s[i])
    ensures r.Some? ==> r.value == [] || !IsSpaceOrTab(r.value[0])
    ensures r.Some? ==> r.value == s[TakeWhile(s, IsSpaceOrTab)..]
  {
    var n := TakeWhile(s, IsSpaceOrTab);
    if n == 0 then None else Some(s[n..])
  }

  /** nom `line_ending` (complete input): "\n" or "\r\n"; fails on anything else, the empty input included. */
  function LineEnding(s: string): (r: Option<string>)
    ensures r.Some? <==> (|s| >= 1 && s[0] == '\n') || (|s| >= 2 && s[0] == '\r' && s[1] == '\n')
    ensures r.Some? ==> IsSuffix(r.value, s) && |r.value| < |s|
    ensures r.Some? ==> r.value == if s[0] == '\n' then s[1..] else s[2..]
  {
    if |s| >= 1 && s[0] == '\n' then Some(s[1..])
    else if |s| >= 2 && s[0] == '\r' && s[1] == '\n' then Some(s[2..])
    else None
  }
}
