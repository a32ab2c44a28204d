/** The conversion between HubSpot deal data and the sales canvas: plain text to
    paragraph HTML and back, the show-stopper tags, the deal owner's name, the next
    meeting, and the fields written back to HubSpot. The clock, date parsing and
    number parsing are inputs. */
module Mapper {
  import opened Common
  import opened Replace
  import OverviewRoute
  import MeetingsRoute

  // ---------------------------------------------------------------- escaping

  /** The three replaces of textToHtml: '&' first, then '<', then '>'. */
  function EscapeText(s: string): string {
    ReplaceAll(ReplaceAll(ReplaceAll(s, Lit("&"), "&amp;"), Lit("<"), "&lt;"), Lit(">"), "&gt;")
  }

  /** The entity each character becomes. */
  function EscapeChar(c: char): string {
    if c == '&' then "&amp;" else if c == '<' then "&lt;" else if c == '>' then "&gt;" else [c]
  }

  /** The text after the first replace of textToHtml, character by character. */
  function AmpDone(c: char): string {
    if c == '&' then "&amp;" else [c]
  }

  /** The text after the second replace. */
  function LtDone(c: char): string {
    if c == '&' then "&amp;" else if c == '<' then "&lt;" else [c]
  }

  /** The text after the first replace of htmlToText's unescaping. */
  function LtUndone(c: char): string {
    if c == '&' then "&amp;" else if c == '>' then "&gt;" else [c]
  }

  /** The unescaping of htmlToText: '&lt;', then '&gt;', then '&amp;'. */
  function Unescape(s: string): string {
    ReplaceAll(ReplaceAll(ReplaceAll(s, Lit("&lt;"), "<"), Lit("&gt;"), ">"), Lit("&amp;"), "&")
  }

  /** No character of `chunk` is the literal's first. */
  lemma NoFirstCharIn(chunk: string, t: string)
    requires |t| > 0 && t[0] !in chunk
    ensures NoLitIn(chunk, t)
  {
    forall i | 0 <= i < |chunk| ensures MismatchAt(chunk, t, i) {
      assert chunk[i + 0] != t[0];
    }
  }

  /** An entity that starts like the literal but differs in its second character. */
  lemma EntityNoLit(chunk: string, t: string)
    requires |chunk| >= 2 && |t| >= 2 && chunk[1] != t[1]
    requires forall k :: 1 <= k < |chunk| ==> chunk[k] != t[0]
    ensures NoLitIn(chunk, t)
  {
    forall i | 0 <= i < |chunk| ensures MismatchAt(chunk, t, i) {
      if i == 0 { assert chunk[0 + 1] != t[1]; } else { assert chunk[i + 0] != t[0]; }
    }
  }

  /** The sequential replaces of textToHtml escape each character on its own. */
  lemma EscapeCharwise(s: string)
    ensures EscapeText(s) == FlatMap(s, EscapeChar)
  {
    FlatMapSingle(s);
    AmpStage(s);
    LtStage(s);
    GtStage(s);
  }

  lemma AmpStage(s: string)
    ensures ReplaceAll(FlatMap(s, Single), Lit("&"), "&amp;") == FlatMap(s, AmpDone)
  {
    forall c ensures (Single(c) == "&" && AmpDone(c) == "&amp;") || (NoLitIn(Single(c), "&") && AmpDone(c) == Single(c)) {
      if c != '&' { NoFirstCharIn([c], "&"); }
    }
    ReplaceLitFlat(s, Single, AmpDone, "&", "&amp;");
  }

  lemma LtStage(s: string)
    ensures ReplaceAll(FlatMap(s, AmpDone), Lit("<"), "&lt;") == FlatMap(s, LtDone)
  {
    forall c ensures (AmpDone(c) == "<" && LtDone(c) == "&lt;") || (NoLitIn(AmpDone(c), "<") && LtDone(c) == AmpDone(c)) {
      if c != '<' { NoFirstCharIn(AmpDone(c), "<"); }
    }
    ReplaceLitFlat(s, AmpDone, LtDone, "<", "&lt;");
  }

  lemma GtStage(s: string)
    ensures ReplaceAll(FlatMap(s, LtDone), Lit(">"), "&gt;") == FlatMap(s, EscapeChar)
  {
    forall c ensures (LtDone(c) == ">" && EscapeChar(c) == "&gt;") || (NoLitIn(LtDone(c), ">") && EscapeChar(c) == LtDone(c)) {
      if c != '>' { NoFirstCharIn(LtDone(c), ">"); }
    }
    ReplaceLitFlat(s, LtDone, EscapeChar, ">", "&gt;");
  }

  /** Escaped text holds no angle bracket. */
  lemma {:induction false} EscapedHasNoAngles(s: string)
    ensures '<' !in FlatMap(s, EscapeChar) && '>' !in FlatMap(s, EscapeChar)
    decreases |s|
  {
    if |s| > 0 {
      EscapedHasNoAngles(s[1..]);
    }
  }

  /** Unescaping undoes escaping. */
  lemma UnescapeEscape(s: string)
    ensures Unescape(EscapeText(s)) == s
  {
    EscapeCharwise(s);
    LtUnstage(s);
    GtUnstage(s);
    AmpUnstage(s);
    FlatMapSingle(s);
  }

  lemma LtUnstage(s: string)
    ensures ReplaceAll(FlatMap(s, EscapeChar), Lit("&lt;"), "<") == FlatMap(s, LtUndone)
  {
    forall c ensures (EscapeChar(c) == "&lt;" && LtUndone(c) == "<") || (NoLitIn(EscapeChar(c), "&lt;") && LtUndone(c) == EscapeChar(c)) {
      if c == '&' { EntityNoLit("&amp;", "&lt;"); }
      else if c == '>' { EntityNoLit("&gt;", "&lt;"); }
      else if c != '<' { NoFirstCharIn([c], "&lt;"); }
    }
    ReplaceLitFlat(s, EscapeChar, LtUndone, "&lt;", "<");
  }

  lemma GtUnstage(s: string)
    ensures ReplaceAll(FlatMap(s, LtUndone), Lit("&gt;"), ">") == FlatMap(s, AmpDone)
  {
    forall c ensures (LtUndone(c) == "&gt;" && AmpDone(c) == ">") || (NoLitIn(LtUndone(c), "&gt;") && AmpDone(c) == LtUndone(c)) {
      if c == '&' { EntityNoLit("&amp;", "&gt;"); }
      else if c != '>' { NoFirstCharIn([c], "&gt;"); }
    }
    ReplaceLitFlat(s, LtUndone, AmpDone, "&gt;", ">");
  }

  lemma AmpUnstage(s: string)
    ensures ReplaceAll(FlatMap(s, AmpDone), Lit("&amp;"), "&") == FlatMap(s, Single)
  {
    forall c ensures (AmpDone(c) == "&amp;" && Single(c) == "&") || (NoLitIn(AmpDone(c), "&amp;") && Single(c) == AmpDone(c)) {
      if c != '&' { NoFirstCharIn([c], "&amp;"); }
    }
    ReplaceLitFlat(s, AmpDone, Single, "&amp;", "&");
  }

  // ---------------------------------------------------------------- textToHtml

  /** The lines of the text that are not blank, in order. */
  function NonBlankLines(text: string): seq<string> {
    Filter(Split(text, '\n'), (line: string) => Trim(line) != "")
  }

  function Paragraph(line: string): string {
    "<p>" + EscapeText(line) + "</p>"
  }

  function Paragraphs(lines: seq<string>): string
    decreases |lines|
  {
    if |lines| == 0 then "" else Paragraph(lines[0]) + Paragraphs(lines[1..])
  }

  /** textToHtml: one escaped paragraph per non-blank line; '' for no text. */
  function TextToHtml(text: string): string {
    if text == "" then ""
    else
      var lines := NonBlankLines(text);
      if |lines| == 0 then "" else Paragraphs(lines)
  }

  // ---------------------------------------------------------------- htmlToText

  /** The five tag replaces of htmlToText. */
  function StripTags(html: string): string {
    var a := ReplaceAll(html, BrTag, "\n");
    var b := ReplaceAll(a, ParagraphBreak, "\n");
    var c := ReplaceAll(b, OpenP, "");
    var d := ReplaceAll(c, CloseP, "");
    ReplaceAll(d, AnyTag, "")
  }

  /** htmlToText: line breaks for <br> and paragraph boundaries, no tags, entities
      unescaped, trimmed. */
  function HtmlToText(html: string): string {
    if html == "" then "" else Trim(Unescape(StripTags(html)))
  }

  // ---------------------------------------------------------------- the round trip

  function EscapeLines(lines: seq<string>): (r: seq<string>)
    ensures |r| == |lines|
    decreases |lines|
  {
    if |lines| == 0 then [] else [EscapeText(lines[0])] + EscapeLines(lines[1..])
  }

  /** The escaped lines hold no '<', nor does their join. */
  lemma {:induction false} EscapedJoinHasNoLt(lines: seq<string>)
    ensures '<' !in Join(EscapeLines(lines), "\n")
    decreases |lines|
  {
    if |lines| > 0 {
      EscapeCharwise(lines[0]);
      EscapedHasNoAngles(lines[0]);
      EscapedJoinHasNoLt(lines[1..]);
      assert EscapeLines(lines)[1..] == EscapeLines(lines[1..]);
    }
  }

  /** Escaping line by line and joining with '\n' is escaping the joined text. */
  lemma {:induction false} EscapeJoin(lines: seq<string>)
    ensures Join(EscapeLines(lines), "\n") == FlatMap(Join(lines, "\n"), EscapeChar)
    decreases |lines|
  {
    if |lines| == 1 {
      EscapeCharwise(lines[0]);
    } else if |lines| > 1 {
      EscapeJoin(lines[1..]);
      EscapeCharwise(lines[0]);
      assert EscapeLines(lines)[1..] == EscapeLines(lines[1..]);
      FlatMapConcat(lines[0] + "\n", Join(lines[1..], "\n"), EscapeChar);
      FlatMapConcat(lines[0], "\n", EscapeChar);
      assert FlatMap("\n", EscapeChar) == "\n" by {
        assert "\n"[1..] == "";
      }
    }
  }

  /** Escaped text holds no angle bracket. */
  lemma EscapeTextNoAngles(s: string)
    ensures '<' !in EscapeText(s) && '>' !in EscapeText(s)
  {
    EscapeCharwise(s);
    EscapedHasNoAngles(s);
  }

  /** An opening "<p" is neither a <br> nor a paragraph boundary. */
  lemma OpeningNotBrOrBoundary(s: string)
    requires |s| >= 2 && s[0] == '<' && s[1] == 'p'
    ensures !Hit(BrTag, s) && !Hit(ParagraphBreak, s)
  {
  }

  /** A closing "</" is not a <br> nor an opening tag. */
  lemma ClosingNotBrOrOpen(s: string)
    requires |s| >= 2 && s[1] == '/'
    ensures !Hit(BrTag, s) && !Hit(OpenP, s)
  {
  }

  /** Past its '<', a paragraph's opening tag holds no match of a tag pattern. */
  lemma LeadingOpenKept(t: string, p: Pattern, rep: string)
    requires !p.Lit? && !Hit(p, "<p>" + t)
    ensures ReplaceAll("<p>" + t, p, rep) == "<p>" + ReplaceAll(t, p, rep)
  {
    var s := "<p>" + t;
    forall i | 0 <= i < 3 ensures !Hit(p, s[i..]) {
      if i > 0 {
        assert s[i..][0] == "<p>"[i];
        if Hit(p, s[i..]) { TagHitStartsWithLt(p, s[i..]); }
      }
    }
    CopyUnmatched("<p>", t, p, rep);
  }

  /** Past its '<', a closing tag holds no match of a tag pattern. */
  lemma ClosingCopied(b: string, p: Pattern, rep: string)
    requires !p.Lit? && !Hit(p, "</p>" + b)
    ensures ReplaceAll("</p>" + b, p, rep) == "</p>" + ReplaceAll(b, p, rep)
  {
    var s := "</p>" + b;
    forall i | 0 <= i < 4 ensures !Hit(p, s[i..]) {
      if i > 0 {
        assert s[i..][0] == "</p>"[i];
        if Hit(p, s[i..]) { TagHitStartsWithLt(p, s[i..]); }
      }
    }
    CopyUnmatched("</p>", b, p, rep);
  }

  /** One paragraph passes the <br> replace untouched. */
  lemma ParagraphBrKept(e: string, rest: string)
    requires '<' !in e
    ensures ReplaceAll("<p>" + (e + ("</p>" + rest)), BrTag, "\n") == "<p>" + (e + ("</p>" + ReplaceAll(rest, BrTag, "\n")))
  {
    var s := "<p>" + (e + ("</p>" + rest));
    assert s[0] == '<' && s[1] == 'p';
    OpeningNotBrOrBoundary(s);
    LeadingOpenKept(e + ("</p>" + rest), BrTag, "\n");
    NoLtCopied(e, "</p>" + rest, BrTag, "\n");
    assert ("</p>" + rest)[1] == '/';
    ClosingNotBrOrOpen("</p>" + rest);
    ClosingCopied(rest, BrTag, "\n");
  }

  /** The <br> replace leaves the paragraphs alone. */
  lemma {:induction false} BrPassKeeps(lines: seq<string>)
    ensures ReplaceAll(Paragraphs(lines), BrTag, "\n") == Paragraphs(lines)
    decreases |lines|
  {
    if |lines| > 0 {
      var e := EscapeText(lines[0]);
      var rest := Paragraphs(lines[1..]);
      EscapeTextNoAngles(lines[0]);
      BrPassKeeps(lines[1..]);
      ParagraphsFront(lines);
      ParagraphBrKept(e, rest);
    }
  }

  lemma Regroup(a: string, b: string, c: string, d: string)
    ensures a + b + c + d == a + (b + (c + d))
  {
  }

  /** The paragraphs as their first opening tag, text and closing tag, then the rest. */
  lemma ParagraphsFront(lines: seq<string>)
    requires |lines| > 0
    ensures Paragraphs(lines) == "<p>" + (EscapeText(lines[0]) + ("</p>" + Paragraphs(lines[1..])))
  {
    Regroup("<p>", EscapeText(lines[0]), "</p>", Paragraphs(lines[1..]));
  }

  /** What follows the first "<p>" of the paragraphs. */
  function TailOf(lines: seq<string>): string
    requires |lines| > 0
  {
    EscapeText(lines[0]) + ("</p>" + Paragraphs(lines[1..]))
  }

  /** "</p><p>" is a paragraph boundary seven characters long. */
  lemma BoundaryMatch(t: string)
    ensures MatchAt(ParagraphBreak, "</p><p>" + t) == Some(7)
  {
    var s := "</p><p>" + t;
    assert IsCloseP(s);
    assert s[4..][0] == '<';
    assert WhiteRun(s[4..]) == 0;
    assert s[4..][2..][0] == '>';
    assert IndexOfGt(s[4..][2..]) == Some(0);
    assert OpenPLength(s[4..]) == Some(3);
  }

  /** A final closing tag is no paragraph boundary. */
  lemma LastClosingKept()
    ensures ReplaceAll("</p>", ParagraphBreak, "\n") == "</p>"
  {
    var s := "</p>";
    assert s[4..] == "";
    assert MatchAt(ParagraphBreak, s).None?;
    assert s + "" == s;
    ClosingCopied("", ParagraphBreak, "\n");
  }

  /** One boundary step: the text, then "\n" for "</p><p>", then the rest. */
  lemma BoundaryStep(e: string, t: string)
    requires '<' !in e
    ensures ReplaceAll(e + ("</p>" + ("<p>" + t)), ParagraphBreak, "\n") == e + "\n" + ReplaceAll(t, ParagraphBreak, "\n")
  {
    assert "</p>" + ("<p>" + t) == "</p><p>" + t;
    NoLtCopied(e, "</p><p>" + t, ParagraphBreak, "\n");
    BoundaryMatch(t);
    ReplaceFront("</p><p>", t, ParagraphBreak, "\n");
  }

  /** The paragraph-boundary replace joins the paragraphs' texts with '\n'. */
  lemma {:induction false} BoundaryPass(lines: seq<string>)
    requires |lines| > 0
    ensures ReplaceAll(TailOf(lines), ParagraphBreak, "\n") == Join(EscapeLines(lines), "\n") + "</p>"
    decreases |lines|
  {
    if |lines| == 1 {
      BoundaryLast(lines);
    } else {
      BoundaryPass(lines[1..]);
      BoundaryNext(lines);
    }
  }

  /** The last paragraph keeps its closing tag. */
  lemma BoundaryLast(lines: seq<string>)
    requires |lines| == 1
    ensures ReplaceAll(TailOf(lines), ParagraphBreak, "\n") == Join(EscapeLines(lines), "\n") + "</p>"
  {
    var e := EscapeText(lines[0]);
    EscapeTextNoAngles(lines[0]);
    assert TailOf(lines) == e + "</p>" by {
      assert Paragraphs(lines[1..]) == "";
    }
    NoLtCopied(e, "</p>", ParagraphBreak, "\n");
    LastClosingKept();
    assert EscapeLines(lines) == [e];
  }

  /** A paragraph followed by another: its text, '\n', then the rest of the pass. */
  lemma BoundaryNext(lines: seq<string>)
    requires |lines| > 1
    requires ReplaceAll(TailOf(lines[1..]), ParagraphBreak, "\n") == Join(EscapeLines(lines[1..]), "\n") + "</p>"
    ensures ReplaceAll(TailOf(lines), ParagraphBreak, "\n") == Join(EscapeLines(lines), "\n") + "</p>"
  {
    var e := EscapeText(lines[0]);
    var j := Join(EscapeLines(lines[1..]), "\n");
    BoundaryFront(lines);
    JoinEscapedFront(lines);
    Assoc(e + "\n", j, "</p>");
  }

  lemma BoundaryFront(lines: seq<string>)
    requires |lines| > 1
    ensures ReplaceAll(TailOf(lines), ParagraphBreak, "\n")
         == EscapeText(lines[0]) + "\n" + ReplaceAll(TailOf(lines[1..]), ParagraphBreak, "\n")
  {
    var e := EscapeText(lines[0]);
    EscapeTextNoAngles(lines[0]);
    var t := TailOf(lines[1..]);
    ParagraphsFront(lines[1..]);
    assert TailOf(lines) == e + ("</p>" + ("<p>" + t));
    BoundaryStep(e, t);
  }

  lemma JoinEscapedFront(lines: seq<string>)
    requires |lines| > 1
    ensures Join(EscapeLines(lines), "\n") == EscapeText(lines[0]) + "\n" + Join(EscapeLines(lines[1..]), "\n")
  {
    assert EscapeLines(lines)[1..] == EscapeLines(lines[1..]);
  }

  lemma Assoc(x: string, y: string, z: string)
    ensures x + (y + z) == x + y + z
  {
  }

  /** The opening tag is removed and the rest has no other. */
  lemma OpenPass(j: string)
    requires '<' !in j
    ensures ReplaceAll("<p>" + (j + "</p>"), OpenP, "") == j + "</p>"
  {
    var b := "<p>" + (j + "</p>");
    assert b[2..][0] == '>';
    assert MatchAt(OpenP, b) == Some(3);
    ReplaceFront("<p>", j + "</p>", OpenP, "");
    NoLtCopied(j, "</p>", OpenP, "");
    assert ("</p>" + "")[1] == '/';
    ClosingNotBrOrOpen("</p>" + "");
    ClosingCopied("", OpenP, "");
    assert "</p>" + "" == "</p>";
  }

  /** The closing tag is removed. */
  lemma ClosePass(j: string)
    requires '<' !in j
    ensures ReplaceAll(j + "</p>", CloseP, "") == j
  {
    NoLtCopied(j, "</p>", CloseP, "");
    assert MatchAt(CloseP, "</p>" + "") == Some(4);
    ReplaceFront("</p>", "", CloseP, "");
    assert "</p>" + "" == "</p>";
  }

  /** The first two tag replaces turn the paragraphs into one paragraph of the escaped
      lines joined by '\n'. */
  lemma BreakPasses(lines: seq<string>)
    requires |lines| > 0
    ensures ReplaceAll(ReplaceAll(Paragraphs(lines), BrTag, "\n"), ParagraphBreak, "\n")
      == "<p>" + (Join(EscapeLines(lines), "\n") + "</p>")
  {
    BrPassKeeps(lines);
    var a := Paragraphs(lines);
    ParagraphsFront(lines);
    assert a == "<p>" + TailOf(lines);
    assert a[0] == '<' && a[1] == 'p';
    OpeningNotBrOrBoundary(a);
    LeadingOpenKept(TailOf(lines), ParagraphBreak, "\n");
    BoundaryPass(lines);
  }

  /** The last three tag replaces leave the text of a single paragraph. */
  lemma TagPasses(h: string, j: string)
    requires '<' !in j
    requires ReplaceAll(ReplaceAll(h, BrTag, "\n"), ParagraphBreak, "\n") == "<p>" + (j + "</p>")
    ensures StripTags(h) == j
  {
    OpenPass(j);
    ClosePass(j);
    NoLtUnchanged(j, AnyTag, "");
  }

  /** The tag replaces reduce the paragraphs to the escaped lines joined by '\n'. */
  lemma StripParagraphs(lines: seq<string>)
    requires |lines| > 0
    ensures StripTags(Paragraphs(lines)) == Join(EscapeLines(lines), "\n")
  {
    EscapedJoinHasNoLt(lines);
    BreakPasses(lines);
    TagPasses(Paragraphs(lines), Join(EscapeLines(lines), "\n"));
  }

  /** htmlToText undoes textToHtml up to blank lines and the outer white space: it gives
      the non-blank lines joined by '\n', trimmed. */
  lemma HtmlToTextInvertsTextToHtml(text: string)
    ensures HtmlToText(TextToHtml(text)) == Trim(Join(NonBlankLines(text), "\n"))
  {
    var lines := NonBlankLines(text);
    if text == "" {
      assert Split(text, '\n') == [""];
      assert lines == [];
    }
    if |lines| == 0 {
      assert Trim("") == "";
    } else {
      ParagraphsToText(lines);
    }
  }

  /** The round trip for at least one line. */
  lemma ParagraphsToText(lines: seq<string>)
    requires |lines| > 0
    ensures HtmlToText(Paragraphs(lines)) == Trim(Join(lines, "\n"))
  {
    var h := Paragraphs(lines);
    assert h[..3] == "<p>";
    StripParagraphs(lines);
    EscapeJoin(lines);
    UnescapeEscape(Join(lines, "\n"));
    EscapeCharwise(Join(lines, "\n"));
  }

  // ---------------------------------------------------------------- show stoppers

  function TrimAll(parts: seq<string>): (r: seq<string>)
    ensures |r| == |parts|
    ensures forall k :: 0 <= k < |parts| ==> r[k] == Trim(parts[k])
    decreases |parts|
  {
    if |parts| == 0 then [] else [Trim(parts[0])] + TrimAll(parts[1..])
  }

  predicate NonEmpty(s: string) {
    s != ""
  }

  /** showStoppers: the ';'-separated tags, trimmed, empties dropped; none without the
      property. */
  function ShowStoppers(tags: Option<string>): seq<string> {
    if !Truthy(tags) then [] else Filter(TrimAll(Split(tags.value, ';')), NonEmpty)
  }

  /** Every tag is non-empty, free of ';' and already trimmed. */
  lemma ShowStoppersShape(tags: Option<string>)
    ensures forall t :: t in ShowStoppers(tags) ==> t != "" && ';' !in t && Trim(t) == t
  {
    if Truthy(tags) {
      var parts := Split(tags.value, ';');
      forall t | t in ShowStoppers(tags) ensures t != "" && ';' !in t && Trim(t) == t {
        FilterMembership(TrimAll(parts), NonEmpty, t);
        var k :| 0 <= k < |parts| && TrimAll(parts)[k] == t;
        assert ';' !in parts[k];
        TrimmedPart(parts[k]);
      }
    }
  }

  /** A trimmed piece is trimmed for good and holds only characters of the piece. */
  lemma TrimmedPart(p: string)
    ensures Trim(Trim(p)) == Trim(p)
    ensures forall c :: c in Trim(p) ==> c in p
  {
    TrimTwice(p);
    TrimSlice(p);
  }

  /** Splitting a join of pieces without the separator gives the pieces back. */
  lemma {:induction false} SplitJoin(parts: seq<string>, sep: char)
    requires |parts| > 0 && forall k :: 0 <= k < |parts| ==> sep !in parts[k]
    ensures Split(Join(parts, [sep]), sep) == parts
    decreases |parts|
  {
    if |parts| == 1 {
      SplitNoSep(parts[0], sep);
    } else {
      SplitJoin(parts[1..], sep);
      SplitAtFirst(parts[0], Join(parts[1..], [sep]), sep);
      assert Join(parts, [sep]) == parts[0] + [sep] + Join(parts[1..], [sep]);
      assert parts == [parts[0]] + parts[1..];
    }
  }

  lemma {:induction false} SplitNoSep(a: string, sep: char)
    requires sep !in a
    ensures Split(a, sep) == [a]
    decreases |a|
  {
    if |a| > 0 {
      SplitNoSep(a[1..], sep);
      assert a == [a[0]] + a[1..];
    }
  }

  lemma {:induction false} SplitAtFirst(a: string, b: string, sep: char)
    requires sep !in a
    ensures Split(a + [sep] + b, sep) == [a] + Split(b, sep)
    decreases |a|
  {
    var s := a + [sep] + b;
    if |a| == 0 {
      assert s[0] == sep && s[1..] == b;
    } else {
      assert s[0] == a[0] && s[1..] == a[1..] + [sep] + b;
      SplitAtFirst(a[1..], b, sep);
      assert a == [a[0]] + a[1..];
    }
  }

  /** Tags that are non-empty, trimmed and free of ';', written with ';' between them,
      read back as the same tags. */
  lemma ShowStoppersOfJoin(tags: seq<string>)
    requires |tags| > 0
    requires forall k :: 0 <= k < |tags| ==> tags[k] != "" && ';' !in tags[k] && Trim(tags[k]) == tags[k]
    ensures ShowStoppers(Some(Join(tags, ";"))) == tags
  {
    var text := Join(tags, ";");
    assert Truthy(Some(text)) by {
      JoinStart(tags, ";");
      assert text[..|tags[0]|] == tags[0];
    }
    assert Split(text, ';') == tags by { SplitJoin(tags, ';'); }
    assert TrimAll(tags) == tags;
    FilterAll(tags, NonEmpty);
  }

  lemma JoinStart(parts: seq<string>, sep: string)
    requires |parts| > 0
    ensures |parts[0]| <= |Join(parts, sep)| && Join(parts, sep)[..|parts[0]|] == parts[0]
  {
  }

  // ---------------------------------------------------------------- deal owner

  datatype Owner = Owner(id: string, email: string, firstName: string, lastName: string)

  /** owners.find by id. */
  function FindOwner(owners: seq<Owner>, id: string): (r: Option<nat>)
    ensures r.Some? ==> (
      && r.value < |owners| && owners[r.value].id == id
      && forall k :: 0 <= k < r.value ==> owners[k].id != id)
    ensures r.None? ==> forall k :: 0 <= k < |owners| ==> owners[k].id != id
    decreases |owners|
  {
    if |owners| == 0 then None
    else if owners[0].id == id then Some(0)
    else
      var rest := FindOwner(owners[1..], id);
      if rest.Some? then Some(rest.value + 1) else None
  }

  /** dealOwner: the first and last name of the first owner with hubspot_owner_id,
      empty names skipped, joined by a space; '' without a match. */
  function DealOwner(ownerId: Option<string>, owners: seq<Owner>): string {
    if !Truthy(ownerId) then ""
    else match FindOwner(owners, ownerId.value)
      case None => ""
      case Some(i) => Join(Filter([owners[i].firstName, owners[i].lastName], NonEmpty), " ")
  }

  /** The owner's name as it is shown, case by case. */
  lemma DealOwnerSpec(ownerId: Option<string>, owners: seq<Owner>)
    ensures !Truthy(ownerId) || FindOwner(owners, ownerId.value).None? ==> DealOwner(ownerId, owners) == ""
    ensures Truthy(ownerId) && FindOwner(owners, ownerId.value).Some? ==>
      var o := owners[FindOwner(owners, ownerId.value).value];
      DealOwner(ownerId, owners) ==
        if o.firstName != "" && o.lastName != "" then o.firstName + " " + o.lastName
        else if o.firstName != "" then o.firstName
        else o.lastName
  {
    if Truthy(ownerId) && FindOwner(owners, ownerId.value).Some? {
      var o := owners[FindOwner(owners, ownerId.value).value];
      NamesJoined(o.firstName, o.lastName);
    }
  }

  /** `[first, last].filter(Boolean).join(' ')`. */
  lemma NamesJoined(first: string, last: string)
    ensures Join(Filter([first, last], NonEmpty), " ") ==
      if first != "" && last != "" then first + " " + last
      else if first != "" then first
      else last
  {
    var names := [first, last];
    assert names[1..] == [last];
    assert [last][1..] == [];
    assert Filter([last], NonEmpty) == if last != "" then [last] else [];
    if first != "" {
      assert Filter(names, NonEmpty) == [first] + Filter([last], NonEmpty);
      if last != "" {
        assert ([first] + [last])[1..] == [last];
      }
    } else {
      assert Filter(names, NonEmpty) == Filter([last], NonEmpty);
    }
  }

  // ---------------------------------------------------------------- next meeting

  datatype Appointment = Appointment(date: int, title: string, description: string)

  /** The header's next appointment: the earliest meeting starting after now (the first
      of equal ones), its title defaulting to 'Meeting'. */
  function NextAppointment(meetings: seq<MeetingsRoute.Meeting>, now: int, instant: Parser): (r: Option<Appointment>)
    ensures r.None? <==> forall k :: 0 <= k < |meetings| ==> !MeetingsRoute.Upcoming(meetings[k], now, instant)
  {
    match MeetingsRoute.Earliest(meetings, now, instant)
    case None => None
    case Some(i) =>
      var m := meetings[i];
      Some(Appointment(MeetingsRoute.StartOf(m, instant),
                       if m.title.Some? && m.title.value != "" then m.title.value else "Meeting", ""))
  }

  /** The appointment starts after now and no later than any meeting that does. */
  lemma NextAppointmentIsEarliest(meetings: seq<MeetingsRoute.Meeting>, now: int, instant: Parser)
    ensures var r := NextAppointment(meetings, now, instant);
      r.Some? ==> (
        && r.value.date > now
        && (forall k :: 0 <= k < |meetings| && MeetingsRoute.Upcoming(meetings[k], now, instant) ==>
              r.value.date <= MeetingsRoute.StartOf(meetings[k], instant)))
  {
    MeetingsRoute.EarliestIsFirstMinimum(meetings, now, instant);
  }

  // ---------------------------------------------------------------- the mapping

  datatype Company = Company(id: string, properties: map<string, string>)

  /** What the deal endpoint hands the mapper. */
  datatype HubSpotDealData = HubSpotDealData(
    id: string,
    properties: map<string, string>,
    company: Option<Company>,
    owners: seq<Owner>,
    meetings: seq<MeetingsRoute.Meeting>,
    stageLabel: Option<string>)

  /** The canvas fields the mapper fills (the roadmap is left out). */
  datatype Canvas = Canvas(
    dealId: string,
    companyName: string,
    companyLogo: Option<string>,
    productManager: string,
    dealOwner: string,
    dealStage: Option<string>,
    dealAge: Option<int>,
    companyDescription: string,
    mrr: int,
    seats: int,
    currency: string,
    nextAppointment: Option<Appointment>,
    situation: string,
    metrics: string,
    solution: string,
    upsell: string,
    requirements: string,
    champion: string,
    competitors: string,
    risks: string,
    showStoppers: seq<string>,
    isDirty: bool)

  function CompanyProp(company: Option<Company>, key: string): Option<string> {
    if company.Some? then OverviewRoute.Prop(company.value.properties, key) else None
  }

  /** `a || b` where a missing b reads as ''. */
  function Either(props: map<string, string>, a: string, b: string): string {
    OverviewRoute.Or(OverviewRoute.Prop(props, a), OverviewRoute.Prop(props, b).GetOr(""))
  }

  /** `parseFloat(x) || 0`: a number parser's result, NaN (None) and 0 both giving 0. */
  function NumberOr0(parse: string -> Option<int>, text: Option<string>): int {
    if text.None? then 0 else parse(text.value).GetOr(0)
  }

  /** mapHubSpotToCanvas, without the roadmap. */
  function MapHubSpotToCanvas(data: HubSpotDealData, now: int, instant: Parser,
                              parseAmount: string -> Option<int>, parseSeats: string -> Option<int>): Canvas {
    var p := data.properties;
    var P := (k: string) => OverviewRoute.Prop(p, k);
    var domain := CompanyProp(data.company, "domain");
    Canvas(
      data.id,
      OverviewRoute.Or(CompanyProp(data.company, "name"), OverviewRoute.Or(P("dealname"), "Unknown Company")),
      if Truthy(domain) then Some("https://logo.clearbit.com/" + domain.value) else None,
      OverviewRoute.Or(P("deal_po"), ""),
      DealOwner(P("hubspot_owner_id"), data.owners),
      data.stageLabel,
      OverviewRoute.CalculateDealAge(P("createdate"), now, instant),
      TextToHtml(CompanyProp(data.company, "description").GetOr("")),
      NumberOr0(parseAmount, P("amount")),
      NumberOr0(parseSeats, P("canvas_seats")),
      "EUR",
      NextAppointment(data.meetings, now, instant),
      TextToHtml(Either(p, "identified_pain", "canvas_situation")),
      TextToHtml(P("metric").GetOr("")),
      TextToHtml(P("canvas_solution").GetOr("")),
      TextToHtml(P("canvas_upsell").GetOr("")),
      TextToHtml(Either(p, "decision_criteria", "canvas_product_requirements")),
      TextToHtml(P("champion_name").GetOr("")),
      TextToHtml(Either(p, "competition_analysis", "canvas_competitors")),
      TextToHtml(Either(p, "canvas_risks", "canvas_risks_blockers")),
      ShowStoppers(P("frontdesk_deal_tags")),
      false)
  }

  /** The properties mapCanvasToHubSpot writes back. */
  datatype HubSpotUpdate = HubSpotUpdate(identified_pain: string, metric: string, decision_criteria: string, amount: int)

  function MapCanvasToHubSpot(canvas: Canvas): HubSpotUpdate {
    HubSpotUpdate(HtmlToText(canvas.situation), HtmlToText(canvas.metrics), HtmlToText(canvas.requirements), canvas.mrr)
  }

  /** Writing an unedited canvas back gives HubSpot its own texts with blank lines and
      outer white space removed, and the same amount. */
  lemma WriteBackUnedited(data: HubSpotDealData, now: int, instant: Parser,
                          parseAmount: string -> Option<int>, parseSeats: string -> Option<int>)
    ensures var u := MapCanvasToHubSpot(MapHubSpotToCanvas(data, now, instant, parseAmount, parseSeats));
      var p := data.properties;
      && u.identified_pain == Trim(Join(NonBlankLines(Either(p, "identified_pain", "canvas_situation")), "\n"))
      && u.metric == Trim(Join(NonBlankLines(OverviewRoute.Prop(p, "metric").GetOr("")), "\n"))
      && u.decision_criteria == Trim(Join(NonBlankLines(Either(p, "decision_criteria", "canvas_product_requirements")), "\n"))
      && u.amount == NumberOr0(parseAmount, OverviewRoute.Prop(p, "amount"))
  {
    var p := data.properties;
    HtmlToTextInvertsTextToHtml(Either(p, "identified_pain", "canvas_situation"));
    HtmlToTextInvertsTextToHtml(OverviewRoute.Prop(p, "metric").GetOr(""));
    HtmlToTextInvertsTextToHtml(Either(p, "decision_criteria", "canvas_product_requirements"));
  }
}
