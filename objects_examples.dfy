/**
  The unit-test vectors of src/objects/mod.rs replayed against the model, and
  the border-byte case at the head of a span. Each lemma names the answer the
  emphasis parser gives on the slice it is handed; no other parser is asked.
 */
module ObjectsExamples {
  import opened Wrappers
  import opened Objects

  /** A letter other than `c` and `s` starts no construct and is no border. */
  predicate Inert(ch: char) {
    ('A' <= ch <= 'Z') || ('a' <= ch <= 'z' && ch != 'c' && ch != 's')
  }

  lemma InertAttempt(src: string, p: Parsers, pos: nat)
    requires Valid(p) && pos + 2 < |src| && Inert(src[pos])
    ensures Attempt(src, p, pos).None?
  {
    assert Structural(src, p, pos) == Continue(pos);
  }

  /** A bold span at scan position `pos`, opened at `pos` itself or after a border byte there. */
  lemma BoldAt(src: string, p: Parsers, pos: nat, pre: nat, e: nat)
    requires Valid(p) && pos + 2 < |src|
    requires (pre == pos && src[pos] == '*') || (pre == pos + 1 && ShiftsAt(src, pos) && src[pre] == '*')
    requires p.emphasis(src[pre..], '*') == Some(e)
    ensures Attempt(src, p, pos) == Some(Hit(Bold(e), 1, pre))
  {
    assert Structural(src, p, pos) == Continue(pre);
  }

  /** After a border byte, an `=` whose closing marker is `e` bytes on gives a verbatim leaf. */
  lemma VerbatimAfterBorder(src: string, p: Parsers, pos: nat, e: nat)
    requires Valid(p) && pos + 2 < |src| && ShiftsAt(src, pos) && src[pos + 1] == '='
    requires p.emphasis(src[pos + 1..], '=') == Some(e)
    ensures pos + 1 + e < |src|
    ensures Attempt(src, p, pos) == Some(Hit(Verbatim(src[pos + 2..pos + 1 + e]), e + 1, pos + 1))
  {
    assert Structural(src, p, pos) == Continue(pos + 1);
    assert CloseAt(src, p, pos + 1, '=') == Some(e);
    assert OneByte(src, p, pos + 1) == Some((Verbatim(src[pos + 2..pos + 1 + e]), e + 1));
  }

  /** Inert bytes up to the first marker at `k`, where a dispatch succeeds. */
  lemma FirstMarkerWins(src: string, p: Parsers, k: nat)
    requires Valid(p) && 0 < k && k + 2 < |src| && IsMarker(src[k]) && Attempt(src, p, k).Some?
    requires forall j :: 0 <= j < k ==> Inert(src[j])
    ensures var h := Attempt(src, p, k).value;
      Scan(src, p) == (Text(src[..h.at]), h.at, Some((h.obj, h.off)))
  {
    forall j | 0 <= j < k && IsCandidate(src, j)
      ensures Attempt(src, p, j).None?
    {
      InertAttempt(src, p, j);
    }
    FirstSuccessWins(src, p, k);
  }

  /** The slices of the test inputs that the scan hands out or compares. */
  lemma VerbatimInputSlices()
    ensures var src := "Normal =verbatim=";
      src[6] == ' ' && src[7] == '=' && src[7..] == "=verbatim=" && src[8..16] == "verbatim"
      && src[..7] == "Normal " && forall j :: 0 <= j < 6 ==> Inert(src[j])
  {
  }

  lemma InnerBoldSlices()
    ensures var src := "x *bold*"; src[1] == ' ' && src[2..] == "*bold*" && src[..2] == "x " && Inert(src[0])
  {
  }

  lemma HeadBoldSlices()
    ensures var src := " *bold*"; src[0] == ' ' && src[1..] == "*bold*"
  {
  }

  /** `*bold*` is a bold span at the head, with no text before it. */
  lemma BoldAlone(p: Parsers)
    requires Valid(p) && p.emphasis("*bold*", '*') == Some(5)
    ensures Scan("*bold*", p) == (Bold(5), 1, None)
  {
    var src := "*bold*";
    assert src[0..] == src;
    BoldAt(src, p, 0, 0, 5);
    FirstSuccessWins(src, p, 0);
  }

  /** `Normal =verbatim=`: the text up to the border space, then the verbatim leaf. */
  lemma VerbatimAfterText(p: Parsers)
    requires Valid(p) && p.emphasis("=verbatim=", '=') == Some(9)
    ensures Scan("Normal =verbatim=", p) == (Text("Normal "), 7, Some((Verbatim("verbatim"), 10)))
  {
    var src := "Normal =verbatim=";
    VerbatimInputSlices();
    VerbatimAfterBorder(src, p, 6, 9);
    FirstMarkerWins(src, p, 6);
  }

  /** A border byte later in the span stays in the text run before the object. */
  lemma BorderKeptInsideSpan(p: Parsers)
    requires Valid(p) && p.emphasis("*bold*", '*') == Some(5)
    ensures Scan("x *bold*", p) == (Text("x "), 2, Some((Bold(5), 1)))
  {
    var src := "x *bold*";
    InnerBoldSlices();
    BoldAt(src, p, 1, 2, 5);
    assert IsMarker(src[1]) && Inert(src[0]);
    FirstMarkerWins(src, p, 1);
  }

  /**
    A comma shifts the one-byte dispatch like a space, but it is not one of the
    bytes the scan jumps to: after a comma later in the span no emphasis is
    found, whatever the emphasis parser answers, and `x,*bold*` is all text.
   */
  lemma CommaNotABorder(p: Parsers)
    requires Valid(p)
    ensures Scan("x,*bold*", p) == (Text("x,*bold*"), 8, None)
  {
    var src := "x,*bold*";
    assert Inert(src[0]) && forall j :: 0 < j < 6 ==> !IsMarker(src[j]);
    forall j | 0 <= j < |src| - 2 && IsCandidate(src, j) ensures Attempt(src, p, j).None? {
      InertAttempt(src, p, j);
    }
    WholeTextIff(src, p);
  }

  /**
    A border byte at the head of the span is in no returned part: ` *bold*`
    gives the same answer as `*bold*`.
   */
  lemma BorderDroppedAtHead(p: Parsers)
    requires Valid(p) && p.emphasis("*bold*", '*') == Some(5)
    ensures Scan(" *bold*", p) == (Bold(5), 1, None)
  {
    var src := " *bold*";
    HeadBoldSlices();
    BoldAt(src, p, 0, 1, 5);
    FirstSuccessWins(src, p, 0);
  }
}
