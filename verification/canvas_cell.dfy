/** The preview of a canvas cell: the plain text of its HTML, the decision whether to
    cut it, and the tag-preserving cut itself. */
module CanvasCell {
  import opened Common
  import opened Replace

  // ---------------------------------------------------------------- the scan, as values

  /** truncateHtml's variables after some characters, and whether it has stopped. */
  datatype Scan = Scan(textLength: nat, result: string, inTag: bool, tagBuffer: string, stopped: bool)

  const Start := Scan(0, "", false, "", false)

  /** One iteration of truncateHtml's loop; after the break nothing changes. */
  function Step(st: Scan, c: char, maxLength: int): Scan {
    if st.stopped then st
    else if c == '<' then st.(inTag := true, tagBuffer := "<")
    else if c == '>' then st.(inTag := false, result := st.result + (st.tagBuffer + ">"), tagBuffer := "")
    else if st.inTag then st.(tagBuffer := st.tagBuffer + [c])
    else if st.textLength >= maxLength then st.(result := st.result + "...", stopped := true)
    else st.(result := st.result + [c], textLength := st.textLength + 1)
  }

  /** The variables after the scan has read `s`. */
  function ScanOf(s: string, maxLength: int): Scan
    decreases |s|
  {
    if |s| == 0 then Start else Step(ScanOf(s[..|s| - 1], maxLength), s[|s| - 1], maxLength)
  }

  function Truncated(html: string, maxLength: int): string {
    ScanOf(html, maxLength).result
  }

  // ---------------------------------------------------------------- tags and text

  /** The text ends inside a tag: its last '<' comes after its last '>'. */
  predicate OpenTag(s: string)
    decreases |s|
  {
    if |s| == 0 then false
    else if s[|s| - 1] == '<' then true
    else if s[|s| - 1] == '>' then false
    else OpenTag(s[..|s| - 1])
  }

  /** The number of text characters: neither '<' nor '>' and outside any tag. */
  function TextLen(s: string): nat
    decreases |s|
  {
    if |s| == 0 then 0
    else
      var c := s[|s| - 1];
      var p := s[..|s| - 1];
      if c == '<' || c == '>' || OpenTag(p) then TextLen(p) else TextLen(p) + 1
  }

  /** No '<' appears inside an unclosed tag. */
  predicate WellNested(s: string) {
    forall i :: 0 <= i < |s| && s[i] == '<' ==> !OpenTag(s[..i])
  }

  /** The most text characters the cut keeps. */
  function Cap(maxLength: int): nat {
    if maxLength > 0 then maxLength else 0
  }

  lemma TextLenGrows(s: string)
    requires |s| > 0
    ensures TextLen(s[..|s| - 1]) <= TextLen(s)
  {
  }

  /** The scan tracks the tag state and the text count of what it has read; it stops
      exactly when the text is longer than the cap, and then it has copied exactly
      the cap. */
  lemma {:induction false} ScanCounts(s: string, maxLength: int)
    ensures var st := ScanOf(s, maxLength);
      && (!st.stopped ==> (
          && st.inTag == OpenTag(s)
          && st.textLength == TextLen(s)
          && (!st.inTag ==> st.tagBuffer == "")
          && (st.inTag ==> st.tagBuffer != "")))
      && (st.stopped <==> TextLen(s) > Cap(maxLength))
      && st.textLength <= Cap(maxLength)
      && (st.stopped ==> st.textLength == Cap(maxLength))
    decreases |s|
  {
    if |s| > 0 {
      ScanCounts(s[..|s| - 1], maxLength);
      TextLenGrows(s);
    }
  }

  /** Once stopped, the scan ignores the rest of the input. */
  lemma {:induction false} StoppedStays(s: string, k: nat, maxLength: int)
    requires k <= |s| && ScanOf(s[..k], maxLength).stopped
    ensures ScanOf(s, maxLength) == ScanOf(s[..k], maxLength)
    decreases |s| - k
  {
    if k < |s| {
      assert s[..|s| - 1][..k] == s[..k];
      StoppedStays(s[..|s| - 1], k, maxLength);
    } else {
      assert s[..k] == s;
    }
  }

  lemma WellNestedPrefix(s: string)
    requires |s| > 0 && WellNested(s)
    ensures WellNested(s[..|s| - 1])
  {
    var p := s[..|s| - 1];
    forall i | 0 <= i < |p| && p[i] == '<' ensures !OpenTag(p[..i]) {
      assert p[..i] == s[..i];
    }
  }

  /** What ScanCopies states of the scan after reading `s`. */
  predicate CopiesInput(st: Scan, s: string) {
    && (!st.stopped ==> st.result + st.tagBuffer == s)
    && (st.stopped ==> (
        && |st.result| >= 3 && st.result[|st.result| - 3..] == "..."
        && IsPrefix(st.result[..|st.result| - 3], s)))
  }

  /** One step keeps CopiesInput when a '<' never comes inside a tag. */
  lemma StepCopies(st: Scan, p: string, c: char, maxLength: int)
    requires CopiesInput(st, p)
    requires !st.stopped ==> ((!st.inTag ==> st.tagBuffer == "") && (c == '<' ==> !st.inTag))
    ensures CopiesInput(Step(st, c, maxLength), p + [c])
  {
    var s := p + [c];
    if st.stopped {
      var q := st.result[..|st.result| - 3];
      assert s[..|q|] == p[..|q|];
    } else if c == '<' {
      assert st.result == p;
    } else if c == '>' {
      assert st.result + (st.tagBuffer + ">") == p + [c];
    } else if st.inTag {
      assert st.result + (st.tagBuffer + [c]) == p + [c];
    } else if st.textLength >= maxLength {
      var r := st.result + "...";
      assert st.result == p;
      assert r[..|r| - 3] == p;
      assert r[|r| - 3..] == "...";
    } else {
      assert st.result + [c] == p + [c];
    }
  }

  /** With well-nested tags, the result and the pending tag make up the input read so
      far; once stopped, the result is a prefix of the input followed by '...'. */
  lemma {:induction false} ScanCopies(s: string, maxLength: int)
    requires WellNested(s)
    ensures CopiesInput(ScanOf(s, maxLength), s)
    decreases |s|
  {
    if |s| > 0 {
      var p := s[..|s| - 1];
      var c := s[|s| - 1];
      WellNestedPrefix(s);
      ScanCopies(p, maxLength);
      ScanCounts(p, maxLength);
      assert s == p + [c];
      if c == '<' {
        assert !OpenTag(s[..|s| - 1]);
      }
      StepCopies(ScanOf(p, maxLength), p, c, maxLength);
    }
  }

  // ---------------------------------------------------------------- truncateHtml

  /** truncateHtml: copy tags whole and without counting them, copy text characters up
      to maxLength, then write '...' and stop; an unclosed tag at the end is dropped. */
  method TruncateHtml(html: string, maxLength: int) returns (result: string)
    ensures result == Truncated(html, maxLength)
  {
    var textLength: nat := 0;
    var inTag := false;
    var tagBuffer := "";
    result := "";
    var i := 0;
    while i < |html|
      invariant 0 <= i <= |html|
      invariant ScanOf(html[..i], maxLength) == Scan(textLength, result, inTag, tagBuffer, false)
    {
      var c := html[i];
      assert html[..i + 1][..i] == html[..i] && html[..i + 1][i] == c;
      if c == '<' {
        inTag := true;
        tagBuffer := [c];
      } else if c == '>' {
        inTag := false;
        tagBuffer := tagBuffer + [c];
        result := result + tagBuffer;
        tagBuffer := "";
      } else if inTag {
        tagBuffer := tagBuffer + [c];
      } else {
        if textLength >= maxLength {
          result := result + "...";
          StoppedStays(html, i + 1, maxLength);
          return;
        }
        result := result + [c];
        textLength := textLength + 1;
      }
      i := i + 1;
    }
    assert html[..|html|] == html;
  }

  /** For well-nested input the cut is a prefix of the input, or a prefix followed by
      '...'; the '...' comes exactly when the text is longer than maxLength. */
  lemma TruncatedIsPrefix(html: string, maxLength: int)
    requires WellNested(html)
    ensures var r := Truncated(html, maxLength);
      if TextLen(html) > Cap(maxLength) then
        |r| >= 3 && r[|r| - 3..] == "..." && IsPrefix(r[..|r| - 3], html)
      else IsPrefix(r, html)
  {
    ScanCopies(html, maxLength);
    ScanCounts(html, maxLength);
    var st := ScanOf(html, maxLength);
    if !st.stopped {
      assert html[..|st.result|] == st.result;
    }
  }

  /** Input with well-nested, closed tags and no more text than maxLength is shown
      whole. */
  lemma ShortHtmlUnchanged(html: string, maxLength: int)
    requires WellNested(html) && !OpenTag(html) && TextLen(html) <= Cap(maxLength)
    ensures Truncated(html, maxLength) == html
  {
    ScanCopies(html, maxLength);
    ScanCounts(html, maxLength);
  }

  /** An unclosed tag at the end is dropped. */
  lemma OpenTagDropped(html: string, maxLength: int)
    requires WellNested(html) && OpenTag(html) && TextLen(html) <= Cap(maxLength)
    ensures |Truncated(html, maxLength)| < |html|
    ensures IsPrefix(Truncated(html, maxLength), html)
  {
    ScanCopies(html, maxLength);
    ScanCounts(html, maxLength);
    var st := ScanOf(html, maxLength);
    assert st.inTag && st.tagBuffer != "";
    assert html[..|st.result|] == st.result;
  }

  /** A '<' inside an unclosed tag starts the tag over: "<a" is dropped from "<a<b>". */
  lemma NestedTagFragmentDropped()
    ensures Truncated("<a<b>", 10) == "<b>"
  {
    var s := "<a<b>";
    assert ScanOf(s[..1], 10) == Scan(0, "", true, "<", false) by {
      assert s[..1][..0] == "";
    }
    assert ScanOf(s[..2], 10) == Scan(0, "", true, "<a", false) by {
      assert s[..2][..1] == s[..1];
    }
    assert ScanOf(s[..3], 10) == Scan(0, "", true, "<", false) by {
      assert s[..3][..2] == s[..2];
    }
    assert ScanOf(s[..4], 10) == Scan(0, "", true, "<b", false) by {
      assert s[..4][..3] == s[..3];
    }
    assert s[..5][..4] == s[..4];
    assert s[..5] == s;
  }

  // ---------------------------------------------------------------- stripHtml

  /** stripHtml: remove `<…>` spans, turn '&nbsp;' into a space, trim. */
  function StripHtml(html: string): string {
    Trim(ReplaceAll(ReplaceAll(html, AnyTag, ""), Lit("&nbsp;"), " "))
  }

  lemma {:induction false} NoGtKept(s: string)
    requires '>' !in s
    ensures '>' !in ReplaceAll(s, AnyTag, "")
    decreases |s|
  {
    if |s| > 0 {
      if Hit(AnyTag, s) {
        NoGtKept(s[MatchAt(AnyTag, s).value..]);
      } else {
        NoGtKept(s[1..]);
      }
    }
  }

  /** A '>' is never the start of a tag, so it survives the tag replace. */
  lemma GtFront(s: string)
    requires |s| > 0 && s[0] == '>'
    ensures ReplaceAll(s, AnyTag, "") == ">" + ReplaceAll(s[1..], AnyTag, "")
  {
  }

  /** A character copied because no tag starts at it does not start one afterwards. */
  lemma CopiedFrontNoTag(s: string)
    requires |s| > 0 && !Hit(AnyTag, s)
    ensures !Hit(AnyTag, [s[0]] + ReplaceAll(s[1..], AnyTag, ""))
  {
    var rest := ReplaceAll(s[1..], AnyTag, "");
    var out := [s[0]] + rest;
    if s[0] == '<' && |s| >= 2 && |out| >= 2 {
      if s[1] == '>' {
        GtFront(s[1..]);
        assert out[1] == '>';
      } else {
        assert IndexOfGt(s[1..]).None?;
        NoGtKept(s[1..]);
        assert out[1..] == rest;
        assert IndexOfGt(out[1..]).None?;
      }
    }
  }

  /** After the tag replace no `<…>` span is left. */
  lemma {:induction false} NoTagLeft(s: string)
    ensures var out := ReplaceAll(s, AnyTag, "");
      forall i :: 0 <= i < |out| ==> !Hit(AnyTag, out[i..])
    decreases |s|
  {
    if |s| > 0 {
      var out := ReplaceAll(s, AnyTag, "");
      if Hit(AnyTag, s) {
        NoTagLeft(s[MatchAt(AnyTag, s).value..]);
        assert out == ReplaceAll(s[MatchAt(AnyTag, s).value..], AnyTag, "");
      } else {
        var rest := ReplaceAll(s[1..], AnyTag, "");
        NoTagLeft(s[1..]);
        assert out == [s[0]] + rest;
        CopiedFrontNoTag(s);
        forall i | 0 <= i < |out| ensures !Hit(AnyTag, out[i..]) {
          if i > 0 {
            assert out[i..] == rest[i - 1..];
          } else {
            assert out[0..] == out;
          }
        }
      }
    }
  }

  /** The plain text holds no tag. */
  lemma StripHtmlRemovesTags(html: string)
    ensures var t := ReplaceAll(html, AnyTag, "");
      forall i :: 0 <= i < |t| ==> !Hit(AnyTag, t[i..])
  {
    NoTagLeft(html);
  }

  // ---------------------------------------------------------------- the decision

  datatype Display = Display(isTruncated: bool, displayContent: string)

  /** The cell's preview: cut only when the plain text is longer than maxLength and the
      cell is not expanded; no content shows as ''. */
  function Preview(textContent: Option<string>, maxLength: int, isExpanded: bool): (d: Display)
    ensures !Truthy(textContent) ==> d == Display(false, "")
    ensures Truthy(textContent) ==> (d.isTruncated <==> |StripHtml(textContent.value)| > maxLength)
    ensures Truthy(textContent) && (!d.isTruncated || isExpanded) ==> d.displayContent == textContent.value
    ensures Truthy(textContent) && d.isTruncated && !isExpanded ==>
      d.displayContent == Truncated(textContent.value, maxLength)
  {
    if !Truthy(textContent) then Display(false, "")
    else
      var needsTruncation := |StripHtml(textContent.value)| > maxLength;
      Display(needsTruncation,
              if needsTruncation && !isExpanded then Truncated(textContent.value, maxLength) else textContent.value)
  }
}
