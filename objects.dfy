/**
  The inline object scanner of src/objects/mod.rs: `Object::next_2` looks at
  a span of text and returns the first inline object in it, either alone, or
  after the plain text that precedes it, or reports that the whole span is
  plain text.

  The per-construct parsers (snippet, macro, radio target, target, footnote
  reference, link, cookie, inline call, inline source and emphasis) are not
  part of this model. They are passed in as a `Parsers` record, and `Valid`
  states what the scanner relies on: a structural parser consumes a non-empty
  prefix of its slice, and the emphasis parser reports the offset of the
  closing marker inside its slice.
 */
module Objects {
  import opened Wrappers

  /** A parsed construct; its grammar-specific fields are not modelled. */
  datatype Entity = Entity(source: string)

  /** `Object`: one inline object. `end` is the offset of the closing marker. */
  datatype Object =
    | Cookie(entity: Entity)
    | FnRef(entity: Entity)
    | InlineCall(entity: Entity)
    | InlineSrc(entity: Entity)
    | Link(entity: Entity)
    | Macros(entity: Entity)
    | RadioTarget(entity: Entity)
    | Snippet(entity: Entity)
    | Target(entity: Entity)
    | Bold(end: nat)
    | Italic(end: nat)
    | Strike(end: nat)
    | Underline(end: nat)
    | Verbatim(text: string)
    | Code(text: string)
    | Text(text: string)

  /** What `next_2` returns: an object, its length, and possibly a second object with its length. */
  type Segmented = (Object, nat, Option<(Object, nat)>)

  /** The per-construct parsers, each applied to the text starting at its marker. */
  datatype Parsers = Parsers(
    snippet: string -> Option<(Entity, nat)>,
    macros: string -> Option<(Entity, nat)>,
    radioTarget: string -> Option<(Entity, nat)>,
    target: string -> Option<(Entity, nat)>,
    fnRef: string -> Option<(Entity, nat)>,
    link: string -> Option<(Entity, nat)>,
    cookie: string -> Option<(Entity, nat)>,
    inlineCall: string -> Option<(Entity, nat)>,
    inlineSrc: string -> Option<(Entity, nat)>,
    emphasis: (string, char) -> Option<nat>
  )

  /** A structural parser consumes a non-empty prefix of its slice. */
  ghost predicate Consumes(f: string -> Option<(Entity, nat)>) {
    forall s :: f(s).Some? ==> 0 < f(s).value.1 <= |s|
  }

  /** The emphasis parser returns the offset of the second marker, inside the slice. */
  ghost predicate ClosesInside(f: (string, char) -> Option<nat>) {
    forall s, m :: f(s, m).Some? ==> 0 < f(s, m).value < |s| && s[f(s, m).value] == m
  }

  ghost predicate Valid(p: Parsers) {
    Consumes(p.snippet) && Consumes(p.macros) && Consumes(p.radioTarget) && Consumes(p.target)
    && Consumes(p.fnRef) && Consumes(p.link) && Consumes(p.cookie)
    && Consumes(p.inlineCall) && Consumes(p.inlineSrc) && ClosesInside(p.emphasis)
  }

  /**
    The bytes the scanner jumps to between candidate positions (`ascii_chars!`).
    None of them opens a one-byte construct.
   */
  predicate IsMarker(c: char)
    ensures IsMarker(c) ==> c != '*' && c != '+' && c != '/' && c != '_' && c != '=' && c != '~' && c != 'c' && c != 's'
  {
    c == '@' || c == ' ' || c == '"' || c == '(' || c == '\n' || c == '{' || c == '<' || c == '['
  }

  /** Positions the scan visits: the start, and every marker byte. */
  predicate IsCandidate(src: string, i: nat)
    requires i < |src|
  {
    i == 0 || IsMarker(src[i])
  }

  /**
    The border-shift rule in closed form: the one-byte dispatch looks one byte
    further exactly after a space, a double quote, a comma, an opening
    parenthesis, a newline, or a `{` that does not open `{{{`.
   */
  predicate ShiftsAt(src: string, pos: nat)
    requires pos + 2 < |src|
    ensures ShiftsAt(src, pos) ==> forall obj :: !Selects(src, pos, obj)
  {
    var c := src[pos];
    c == ' ' || c == '"' || c == ',' || c == '(' || c == '\n'
    || (c == '{' && !(src[pos + 1] == '{' && src[pos + 2] == '{'))
  }

  /** The three-byte pattern at `pos` that selects each structural construct. */
  predicate Selects(src: string, pos: nat, obj: Object)
    requires pos + 2 < |src|
  {
    var (a, b, c) := (src[pos], src[pos + 1], src[pos + 2]);
    match obj
    case Snippet(_) => a == '@' && b == '@'
    case Macros(_) => a == '{' && b == '{' && c == '{'
    case RadioTarget(_) => a == '<' && b == '<' && c == '<'
    case Target(_) => a == '<' && b == '<' && c != '<' && c != '\n'
    case FnRef(_) => a == '[' && b == 'f' && c == 'n'
    case Link(_) => a == '[' && b == '['
    case Cookie(_) => a == '[' && b != '[' && !(b == 'f' && c == 'n')
    case _ => false
  }

  /** An emphasis span: marker `m` at `pre`, the closing one `e` bytes later. */
  predicate SpanAt(src: string, pre: nat, m: char, e: nat) {
    pre < |src| && src[pre] == m && 0 < e && pre + e < |src| && src[pre + e] == m
  }

  /**
    The structural parser that `obj`'s kind calls answered `(e, off)` on `s`,
    and `obj` wraps that entity `e`.
   */
  predicate Parses(p: Parsers, s: string, obj: Object, off: nat) {
    match obj
    case Snippet(e) => p.snippet(s) == Some((e, off))
    case Macros(e) => p.macros(s) == Some((e, off))
    case RadioTarget(e) => p.radioTarget(s) == Some((e, off))
    case Target(e) => p.target(s) == Some((e, off))
    case FnRef(e) => p.fnRef(s) == Some((e, off))
    case Link(e) => p.link(s) == Some((e, off))
    case Cookie(e) => p.cookie(s) == Some((e, off))
    case InlineCall(e) => p.inlineCall(s) == Some((e, off))
    case InlineSrc(e) => p.inlineSrc(s) == Some((e, off))
    case _ => false
  }

  /**
    The one-byte table: the byte at `pre` selects `obj`'s kind, and the parser
    that kind calls on `src[pre..]` gave `obj` and its length `off`. An
    emphasis span carries the emphasis parser's offset and consumes 1;
    verbatim and code consume that offset plus one and hold the bytes strictly
    between the two markers.
   */
  predicate Answers(src: string, p: Parsers, pre: nat, obj: Object, off: nat) {
    pre < |src| &&
    match obj
    case Bold(e) => src[pre] == '*' && p.emphasis(src[pre..], '*') == Some(e) && off == 1
    case Strike(e) => src[pre] == '+' && p.emphasis(src[pre..], '+') == Some(e) && off == 1
    case Italic(e) => src[pre] == '/' && p.emphasis(src[pre..], '/') == Some(e) && off == 1
    case Underline(e) => src[pre] == '_' && p.emphasis(src[pre..], '_') == Some(e) && off == 1
    case Verbatim(t) => src[pre] == '=' && 2 <= off && pre + off - 1 <= |src|
      && p.emphasis(src[pre..], '=') == Some(off - 1) && t == src[pre + 1..pre + off - 1]
    case Code(t) => src[pre] == '~' && 2 <= off && pre + off - 1 <= |src|
      && p.emphasis(src[pre..], '~') == Some(off - 1) && t == src[pre + 1..pre + off - 1]
    case InlineCall(_) => src[pre] == 'c' && Parses(p, src[pre..], obj, off)
    case InlineSrc(_) => src[pre] == 's' && Parses(p, src[pre..], obj, off)
    case _ => false
  }

  /**
    What a one-byte construct says about the text: an emphasis span opens and
    closes with the same marker; verbatim and code consume both markers.
   */
  predicate Delimits(src: string, pre: nat, obj: Object, off: nat) {
    match obj
    case Bold(e) => SpanAt(src, pre, '*', e)
    case Strike(e) => SpanAt(src, pre, '+', e)
    case Italic(e) => SpanAt(src, pre, '/', e)
    case Underline(e) => SpanAt(src, pre, '_', e)
    case Verbatim(_) => off >= 2 && SpanAt(src, pre, '=', off - 1)
    case Code(_) => off >= 2 && SpanAt(src, pre, '~', off - 1)
    case _ => true
  }

  /** The outcome of the three-byte dispatch: an object, or the position for the one-byte dispatch. */
  datatype Outcome = Found(obj: Object, off: nat) | Continue(pre: nat)

  function Structure(r: Option<(Entity, nat)>, make: Entity -> Object, pos: nat): Outcome {
    match r
    case Some((e, off)) => Found(make(e), off)
    case None => Continue(pos)
  }

  /**
    The three-byte structural dispatch at `pos`, tried in the source's order.
    It finds an object exactly when the three bytes at `pos` select a kind and
    that kind's parser answers; otherwise the one-byte dispatch goes on at the
    border-shifted position.
   */
  function Structural(src: string, p: Parsers, pos: nat): (r: Outcome)
    requires Valid(p) && pos + 2 < |src|
    ensures r.Found? ==> Selects(src, pos, r.obj) && Parses(p, src[pos..], r.obj, r.off)
    ensures r.Found? ==> 0 < r.off <= |src| - pos
    ensures forall obj: Object, off: nat :: Selects(src, pos, obj) && Parses(p, src[pos..], obj, off) ==> r == Found(obj, off)
    ensures ShiftsAt(src, pos) ==> r == Continue(pos + 1)
    ensures r.Continue? && !ShiftsAt(src, pos) ==> r.pre == pos
  {
    var rest := src[pos..];
    var (a, b, c) := (src[pos], src[pos + 1], src[pos + 2]);
    if a == '@' && b == '@' then Structure(p.snippet(rest), e => Snippet(e), pos)
    else if a == '{' && b == '{' && c == '{' then Structure(p.macros(rest), e => Macros(e), pos)
    else if a == '<' && b == '<' && c == '<' then Structure(p.radioTarget(rest), e => RadioTarget(e), pos)
    else if a == '<' && b == '<' then
      if c != '\n' then Structure(p.target(rest), e => Target(e), pos) else Continue(pos)
    else if a == '[' && b == 'f' && c == 'n' then Structure(p.fnRef(rest), e => FnRef(e), pos)
    else if a == '[' && b == '[' then Structure(p.link(rest), e => Link(e), pos)
    else if a == '[' then Structure(p.cookie(rest), e => Cookie(e), pos)
    else if a == '{' || a == ' ' || a == '"' || a == ',' || a == '(' || a == '\n' then Continue(pos + 1)
    else Continue(pos)
  }

  /** The emphasis parser at `pre`: the offset of the closing marker, which closes a span. */
  function CloseAt(src: string, p: Parsers, pre: nat, m: char): (r: Option<nat>)
    requires Valid(p) && pre < |src| && src[pre] == m
    ensures r.Some? ==> SpanAt(src, pre, m, r.value)
  {
    p.emphasis(src[pre..], m)
  }

  /** The emphasis arms: `*`, `+`, `/` and `_` give a span that consumes its opening marker. */
  function SpanArm(src: string, p: Parsers, pre: nat): (r: Option<(Object, nat)>)
    requires Valid(p) && pre < |src|
    requires src[pre] == '*' || src[pre] == '+' || src[pre] == '/' || src[pre] == '_'
    ensures r.Some? ==> Answers(src, p, pre, r.value.0, r.value.1) && Delimits(src, pre, r.value.0, r.value.1)
    ensures forall obj: Object, off: nat :: Answers(src, p, pre, obj, off) ==> r == Some((obj, off))
  {
    var m := src[pre];
    match CloseAt(src, p, pre, m)
    case None => None
    case Some(e) =>
      Some((if m == '*' then Bold(e) else if m == '+' then Strike(e) else if m == '/' then Italic(e) else Underline(e), 1))
  }

  /** The `=` and `~` arms: a leaf that holds the bytes between the markers and consumes both. */
  function LeafArm(src: string, p: Parsers, pre: nat): (r: Option<(Object, nat)>)
    requires Valid(p) && pre < |src| && (src[pre] == '=' || src[pre] == '~')
    ensures r.Some? ==> Answers(src, p, pre, r.value.0, r.value.1) && Delimits(src, pre, r.value.0, r.value.1)
    ensures forall obj: Object, off: nat :: Answers(src, p, pre, obj, off) ==> r == Some((obj, off))
  {
    var m := src[pre];
    match CloseAt(src, p, pre, m)
    case None => None
    case Some(e) =>
      var text := src[pre + 1..pre + e];
      Some((if m == '=' then Verbatim(text) else Code(text), e + 1))
  }

  /** The `c` and `s` arms: an inline call or inline source block, as its parser reads it. */
  function CallOrSourceArm(src: string, p: Parsers, pre: nat): (r: Option<(Object, nat)>)
    requires Valid(p) && pre < |src| && (src[pre] == 'c' || src[pre] == 's')
    ensures r.Some? ==> Answers(src, p, pre, r.value.0, r.value.1)
    ensures forall obj: Object, off: nat :: Answers(src, p, pre, obj, off) ==> r == Some((obj, off))
  {
    var parsed := if src[pre] == 'c' then p.inlineCall(src[pre..]) else p.inlineSrc(src[pre..]);
    match parsed
    case Some((e, off)) => Some((if src[pre] == 'c' then InlineCall(e) else InlineSrc(e), off))
    case None => None
  }

  /**
    The one-byte dispatch at `pre`: the source's match on `bytes[pre]`. It
    finds an object exactly when the byte selects a kind and that kind's
    parser answers.
   */
  function OneByte(src: string, p: Parsers, pre: nat): (r: Option<(Object, nat)>)
    requires Valid(p) && pre < |src|
    ensures r.Some? ==> Answers(src, p, pre, r.value.0, r.value.1) && Delimits(src, pre, r.value.0, r.value.1)
    ensures r.Some? ==> 0 < r.value.1 <= |src| - pre
    ensures forall obj: Object, off: nat :: Answers(src, p, pre, obj, off) ==> r == Some((obj, off))
  {
    var m := src[pre];
    if m == '*' || m == '+' || m == '/' || m == '_' then SpanArm(src, p, pre)
    else if m == '=' || m == '~' then LeafArm(src, p, pre)
    else if m == 'c' || m == 's' then CallOrSourceArm(src, p, pre)
    else None
  }

  /** A successful dispatch: the object, its length, and the index it starts at. */
  datatype Hit = Hit(obj: Object, off: nat, at: nat)

  /** Where the one-byte dispatch looks for scan position `pos`. */
  function Shifted(src: string, pos: nat): (pre: nat)
    requires pos + 2 < |src|
    ensures pre == pos + 1 <==> ShiftsAt(src, pos)
    ensures pre == pos || pre == pos + 1
  {
    if ShiftsAt(src, pos) then pos + 1 else pos
  }

  /**
    Both dispatches at scan position `pos`. A structural object selected at
    `pos` wins; only when no structural parser answers is the one-byte table
    consulted, at the border-shifted position.
   */
  function Attempt(src: string, p: Parsers, pos: nat): (r: Option<Hit>)
    requires Valid(p) && pos + 2 < |src|
    ensures r.Some? ==> 0 < r.value.off <= |src| - r.value.at && !r.value.obj.Text?
    ensures forall obj: Object, off: nat :: Selects(src, pos, obj) && Parses(p, src[pos..], obj, off) ==> r == Some(Hit(obj, off, pos))
    ensures Structural(src, p, pos).Continue? ==>
      (r.Some? ==> r.value.at == Shifted(src, pos) && Answers(src, p, r.value.at, r.value.obj, r.value.off))
      && forall obj: Object, off: nat :: Answers(src, p, Shifted(src, pos), obj, off) ==> r == Some(Hit(obj, off, Shifted(src, pos)))
    ensures r.Some? && r.value.at == pos + 1 ==> ShiftsAt(src, pos)
    ensures r.Some? ==> (r.value.at == pos && Selects(src, pos, r.value.obj)) || Answers(src, p, r.value.at, r.value.obj, r.value.off)
  {
    match Structural(src, p, pos)
    case Found(obj, off) => Some(Hit(obj, off, pos))
    case Continue(pre) =>
      match OneByte(src, p, pre)
      case Some((obj, off)) => Some(Hit(obj, off, pre))
      case None => None
  }

  /**
    The `brk!` macro: the object alone when the unshifted scan position is 0;
    otherwise the text from the start of the span up to the object's start,
    then the object. In the second shape the two parts are contiguous.
   */
  function Shape(src: string, pos: nat, h: Hit): (r: Segmented)
    requires h.at <= |src|
    ensures r.2.None? <==> pos == 0
    ensures r.2.None? ==> r.0 == h.obj && r.1 == h.off
    ensures r.2.Some? ==> r.1 == h.at && r.0 == Text(src[..h.at]) && r.2.value == (h.obj, h.off)
  {
    if pos == 0 then (h.obj, h.off, None)
    else (Text(src[..h.at]), h.at, Some((h.obj, h.off)))
  }

  /** The dispatch at position `j`, which only candidate positions attempt. */
  function HitAt(src: string, p: Parsers, j: nat): Option<Hit>
    requires Valid(p) && j + 2 < |src|
  {
    if IsCandidate(src, j) then Attempt(src, p, j) else None
  }

  /** The dispatch outcome at every scan position below `|src| - 2`. */
  function Hits(src: string, p: Parsers): (hs: seq<Option<Hit>>)
    requires Valid(p) && |src| > 2
    ensures |hs| == |src| - 2
    ensures forall j :: 0 <= j < |hs| ==> hs[j] == HitAt(src, p, j)
  {
    seq(|src| - 2, j requires 0 <= j < |src| - 2 => HitAt(src, p, j))
  }

  /** The first index at or after `i` holding a value, with that value. */
  function FirstSome<T>(hs: seq<Option<T>>, i: nat): (r: Option<(nat, T)>)
    requires i <= |hs|
    ensures r.Some? ==> i <= r.value.0 < |hs| && hs[r.value.0] == Some(r.value.1)
    ensures r.Some? ==> forall j :: i <= j < r.value.0 ==> hs[j].None?
    ensures r.None? <==> forall j :: i <= j < |hs| ==> hs[j].None?
    decreases |hs| - i
  {
    if i == |hs| then None
    else if hs[i].Some? then Some((i, hs[i].value))
    else FirstSome(hs, i + 1)
  }

  /** What `next_2` returns, read off the first successful candidate. */
  function Scan(src: string, p: Parsers): (r: Segmented)
    requires Valid(p)
    ensures r.1 <= |src|
    ensures r.2.Some? ==> 0 < r.1 && r.0 == Text(src[..r.1]) && r.1 + r.2.value.1 <= |src|
  {
    if |src| <= 2 then (Text(src), |src|, None)
    else
      match FirstSome(Hits(src, p), 0)
      case None => (Text(src), |src|, None)
      case Some((pos, h)) => Shape(src, pos, h)
  }

  /**
    The whole span comes back as one text run exactly when it is at most two
    bytes long or no candidate position before `|src| - 2` dispatches.
   */
  lemma WholeTextIff(src: string, p: Parsers)
    requires Valid(p)
    ensures Scan(src, p) == (Text(src), |src|, None) <==>
      |src| <= 2 || forall j :: 0 <= j < |src| - 2 && IsCandidate(src, j) ==> Attempt(src, p, j).None?
  {
    if |src| > 2 {
      var hs := Hits(src, p);
      if FirstSome(hs, 0).Some? {
        var (pos, h) := FirstSome(hs, 0).value;
        assert HitAt(src, p, pos).Some?;
        if pos > 0 {
          assert Scan(src, p).2.Some?;
        } else {
          assert !Scan(src, p).0.Text?;
        }
      } else {
        forall j | 0 <= j < |src| - 2 && IsCandidate(src, j) ensures Attempt(src, p, j).None? {
          assert hs[j] == HitAt(src, p, j);
        }
      }
    }
  }

  /**
    The scan reports the first candidate position that dispatches: the object
    alone when that position is 0, otherwise the text before the dispatch
    index followed by the object.
   */
  lemma FirstSuccessWins(src: string, p: Parsers, pos: nat)
    requires Valid(p) && pos + 2 < |src| && IsCandidate(src, pos) && Attempt(src, p, pos).Some?
    requires forall j :: 0 <= j < pos && IsCandidate(src, j) ==> Attempt(src, p, j).None?
    ensures var h := Attempt(src, p, pos).value;
      Scan(src, p) == if pos == 0 then (h.obj, h.off, None) else (Text(src[..h.at]), h.at, Some((h.obj, h.off)))
  {
    var hs := Hits(src, p);
    assert hs[pos] == HitAt(src, p, pos);
    forall j | 0 <= j < pos ensures hs[j].None? {
      assert hs[j] == HitAt(src, p, j);
    }
    FirstSomeAt(hs, 0, pos);
  }

  /** The first index holding a value is found. */
  lemma FirstSomeAt<T>(hs: seq<Option<T>>, i: nat, k: nat)
    requires i <= k < |hs| && hs[k].Some? && forall j :: i <= j < k ==> hs[j].None?
    ensures FirstSome(hs, i) == Some((k, hs[k].value))
  {
    var r := FirstSome(hs, i);
    assert r.Some? && r.value.0 == k;
  }

  /**
    Past the start of the span, a one-byte construct is found only right after
    a border byte: at a marker other than a border, the one-byte dispatch sees
    the marker itself, and no marker opens a one-byte construct.
   */
  lemma OneByteNeedsBorder(src: string, p: Parsers, pos: nat)
    requires Valid(p) && 0 < pos && pos + 2 < |src| && IsCandidate(src, pos)
    requires Structural(src, p, pos).Continue? && Attempt(src, p, pos).Some?
    ensures ShiftsAt(src, pos) && Attempt(src, p, pos).value.at == pos + 1
  {
  }

  /**
    A lone object always comes from position 0, and starts at byte 1 exactly
    when byte 0 is a border byte. In that case byte 0 is in none of the
    returned parts, because the result shape depends on the unshifted scan
    position.
   */
  lemma LoneObjectAtHead(src: string, p: Parsers)
    requires Valid(p) && Scan(src, p).2.None? && !Scan(src, p).0.Text?
    ensures |src| > 2 && Attempt(src, p, 0).Some?
    ensures var h := Attempt(src, p, 0).value; Scan(src, p) == (h.obj, h.off, None)
    ensures Attempt(src, p, 0).value.at == 1 <==> ShiftsAt(src, 0)
  {
    var hs := Hits(src, p);
    var r := FirstSome(hs, 0);
    assert r.Some? && r.value.0 == 0;
    assert hs[0] == HitAt(src, p, 0);
  }

  /** Indices holding no value can be skipped: the search gives the same answer after them. */
  lemma {:induction false} SkipNones<T>(hs: seq<Option<T>>, from: nat, stop: nat)
    requires from <= stop <= |hs| && forall j :: from <= j < stop ==> hs[j].None?
    ensures FirstSome(hs, from) == FirstSome(hs, stop)
    decreases stop - from
  {
    if from < stop {
      SkipNones(hs, from + 1, stop);
    }
  }

  /**
    After a failed candidate at `pos`, no position before the next marker byte
    dispatches, so the search may jump to that marker.
   */
  lemma SkipToMarker(src: string, p: Parsers, pos: nat, stop: nat)
    requires Valid(p) && |src| > 2 && pos < stop <= |src| - 2
    requires Attempt(src, p, pos).None?
    requires forall j :: pos < j < stop ==> !IsMarker(src[j])
    ensures var hs := Hits(src, p); FirstSome(hs, pos) == FirstSome(hs, stop)
  {
    var hs := Hits(src, p);
    forall j | pos <= j < stop ensures hs[j].None? {
      assert hs[j] == HitAt(src, p, j);
    }
    SkipNones(hs, pos, stop);
  }

  /** The `ascii_chars!` search: the first marker byte at or after `from`, or `|src|` when there is none. */
  method FindMarker(src: string, from: nat) returns (i: nat)
    requires from <= |src|
    ensures from <= i <= |src|
    ensures forall j :: from <= j < i ==> !IsMarker(src[j])
    ensures i < |src| ==> IsMarker(src[i])
  {
    i := from;
    while i < |src| && !IsMarker(src[i])
      invariant from <= i <= |src|
      invariant forall j :: from <= j < i ==> !IsMarker(src[j])
    {
      i := i + 1;
    }
  }

  /** When the search has reached a candidate `pos` that dispatches, the scan's answer is shaped from it. */
  lemma ShapedAt(src: string, p: Parsers, pos: nat, h: Hit)
    requires Valid(p) && pos + 2 < |src| && IsCandidate(src, pos) && Attempt(src, p, pos) == Some(h)
    requires FirstSome(Hits(src, p), 0) == FirstSome(Hits(src, p), pos)
    ensures h.at <= |src| && Scan(src, p) == Shape(src, pos, h)
  {
    var hs := Hits(src, p);
    assert hs[pos] == HitAt(src, p, pos);
  }

  /**
    `Object::next_2`: from position 0, try both dispatches, and on failure
    jump to the next marker byte while it lies before `|src| - 2`.
   */
  method Next2(src: string, p: Parsers) returns (r: Segmented)
    requires Valid(p)
    ensures r == Scan(src, p)
  {
    if |src| <= 2 {
      return (Text(src), |src|, None);
    }
    ghost var hs := Hits(src, p);
    var pos := 0;
    while true
      invariant pos < |src| - 2 && IsCandidate(src, pos)
      invariant FirstSome(hs, 0) == FirstSome(hs, pos)
      decreases |src| - pos
    {
      var pre := pos;
      match Structural(src, p, pos) {
        case Found(obj, off) =>
          ShapedAt(src, p, pos, Hit(obj, off, pos));
          return Shape(src, pos, Hit(obj, off, pos));
        case Continue(shifted) =>
          pre := shifted;
      }
      var leaf := OneByte(src, p, pre);
      if leaf.Some? {
        ShapedAt(src, p, pos, Hit(leaf.value.0, leaf.value.1, pre));
        return Shape(src, pos, Hit(leaf.value.0, leaf.value.1, pre));
      }
      var i := FindMarker(src, pos + 1);
      if i < |src| - 2 {
        SkipToMarker(src, p, pos, i);
        pos := i;
      } else {
        SkipToMarker(src, p, pos, |src| - 2);
        return (Text(src), |src|, None);
      }
    }
  }
}
