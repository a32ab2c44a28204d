/** String.prototype.replace with a global regular expression, for the handful of
    expressions the HTML conversions of the canvas use. A pattern is matched at the
    front of the remaining text; the replacement scans left to right, replacing the
    leftmost match and continuing after it. None of the patterns matches the empty
    string. */
module Replace {
  import opened Common

  /** The expressions: /<br\s*\/?>/gi, /<\/p>\s*<p[^>]*>/gi, /<p[^>]*>/gi, /<\/p>/gi,
      /<[^>]+>/g, and a literal text. */
  datatype Pattern = BrTag | ParagraphBreak | OpenP | CloseP | AnyTag | Lit(text: string)

  /** `c` is the ASCII letter `lower` in either case (the `i` flag). */
  predicate IsLetterCI(c: char, lower: char)
    requires 'a' <= lower <= 'z'
  {
    c == lower || c as int == lower as int - 32
  }

  /** The greedy `\s*` at the front of `s`. */
  function WhiteRun(s: string): (n: nat)
    ensures n <= |s|
    ensures forall k :: 0 <= k < n ==> IsWhite(s[k])
    ensures n < |s| ==> !IsWhite(s[n])
    decreases |s|
  {
    if |s| > 0 && IsWhite(s[0]) then 1 + WhiteRun(s[1..]) else 0
  }

  /** The first '>' of `s`. */
  function IndexOfGt(s: string): (r: Option<nat>)
    ensures r.Some? ==> r.value < |s| && s[r.value] == '>' && forall k :: 0 <= k < r.value ==> s[k] != '>'
    ensures r.None? ==> forall k :: 0 <= k < |s| ==> s[k] != '>'
    decreases |s|
  {
    if |s| == 0 then None
    else if s[0] == '>' then Some(0)
    else
      var rest := IndexOfGt(s[1..]);
      if rest.Some? then Some(rest.value + 1) else None
  }

  /** `<p[^>]*>`: '<', 'p' in either case, then up to and including the first '>'. */
  function OpenPLength(s: string): Option<nat> {
    if |s| < 2 || s[0] != '<' || !IsLetterCI(s[1], 'p') then None
    else match IndexOfGt(s[2..])
      case None => None
      case Some(k) => Some(k + 3)
  }

  predicate IsCloseP(s: string) {
    |s| >= 4 && s[0] == '<' && s[1] == '/' && IsLetterCI(s[2], 'p') && s[3] == '>'
  }

  /** The length of the match of `p` at the front of `s`, if it matches there. Greedy
      `\s*` needs no backtracking here: what follows it is never white space. */
  function MatchAt(p: Pattern, s: string): Option<nat> {
    match p
    case BrTag =>
      if |s| < 3 || s[0] != '<' || !IsLetterCI(s[1], 'b') || !IsLetterCI(s[2], 'r') then None
      else
        var j := 3 + WhiteRun(s[3..]);
        var j2 := if j < |s| && s[j] == '/' then j + 1 else j;
        if j2 < |s| && s[j2] == '>' then Some(j2 + 1) else None
    case ParagraphBreak =>
      if !IsCloseP(s) then None
      else
        var j := 4 + WhiteRun(s[4..]);
        (match OpenPLength(s[j..])
         case None => None
         case Some(k) => Some(j + k))
    case OpenP => OpenPLength(s)
    case CloseP => if IsCloseP(s) then Some(4) else None
    case AnyTag =>
      if |s| < 2 || s[0] != '<' || s[1] == '>' then None
      else (match IndexOfGt(s[1..])
        case None => None
        case Some(k) => Some(k + 2))
    case Lit(t) => if |t| > 0 && IsPrefix(t, s) then Some(|t|) else None
  }

  /** A usable match: non-empty and inside the text. */
  predicate Hit(p: Pattern, s: string) {
    MatchAt(p, s).Some? && 0 < MatchAt(p, s).value <= |s|
  }

  /** `s.replace(p, rep)` for a global `p`. */
  function ReplaceAll(s: string, p: Pattern, rep: string): string
    decreases |s|
  {
    if |s| == 0 then ""
    else if Hit(p, s) then rep + ReplaceAll(s[MatchAt(p, s).value..], p, rep)
    else [s[0]] + ReplaceAll(s[1..], p, rep)
  }

  /** The character every match of a tag pattern starts with. */
  lemma TagHitStartsWithLt(p: Pattern, s: string)
    requires !p.Lit? && Hit(p, s)
    ensures s[0] == '<'
  {
  }

  /** Text no match starts in is copied unchanged. */
  lemma CopyUnmatched(a: string, b: string, p: Pattern, rep: string)
    requires forall i :: 0 <= i < |a| ==> !Hit(p, (a + b)[i..])
    ensures ReplaceAll(a + b, p, rep) == a + ReplaceAll(b, p, rep)
  {
    var s := a + b;
    CopyFrom(s, 0, |a|, p, rep);
    assert s[0..] == s && s[0..|a|] == a && s[|a|..] == b;
  }

  /** The scan copies every position in [i, n) where no match starts. */
  lemma {:induction false} CopyFrom(s: string, i: nat, n: nat, p: Pattern, rep: string)
    requires i <= n <= |s|
    requires forall k {:trigger Hit(p, s[k..])} :: i <= k < n ==> !Hit(p, s[k..])
    ensures ReplaceAll(s[i..], p, rep) == s[i..n] + ReplaceAll(s[n..], p, rep)
    decreases n - i
  {
    if i < n {
      CopyOne(s, i, p, rep);
      CopyFrom(s, i + 1, n, p, rep);
      assert s[i..n] == [s[i]] + s[i + 1..n];
    }
  }

  /** Where no match starts, the scan copies one character. */
  lemma CopyOne(s: string, i: nat, p: Pattern, rep: string)
    requires i < |s| && !Hit(p, s[i..])
    ensures ReplaceAll(s[i..], p, rep) == [s[i]] + ReplaceAll(s[i + 1..], p, rep)
  {
    var t := s[i..];
    assert t[0] == s[i] && t[1..] == s[i + 1..];
  }

  /** A match at the front is replaced and the scan resumes after it. */
  lemma ReplaceFront(a: string, b: string, p: Pattern, rep: string)
    requires |a| > 0 && MatchAt(p, a + b) == Some(|a|)
    ensures ReplaceAll(a + b, p, rep) == rep + ReplaceAll(b, p, rep)
  {
    assert (a + b)[|a|..] == b;
  }

  /** A tag pattern leaves text without '<' alone. */
  lemma NoLtUnchanged(s: string, p: Pattern, rep: string)
    requires !p.Lit? && '<' !in s
    ensures ReplaceAll(s, p, rep) == s
  {
    forall i | 0 <= i < |s| ensures !Hit(p, (s + "")[i..]) {
      assert (s + "")[i..][0] == s[i];
      if Hit(p, (s + "")[i..]) { TagHitStartsWithLt(p, (s + "")[i..]); }
    }
    CopyUnmatched(s, "", p, rep);
    assert s + "" == s;
  }

  /** Same, before any continuation. */
  lemma NoLtCopied(a: string, b: string, p: Pattern, rep: string)
    requires !p.Lit? && '<' !in a
    ensures ReplaceAll(a + b, p, rep) == a + ReplaceAll(b, p, rep)
  {
    forall i | 0 <= i < |a| ensures !Hit(p, (a + b)[i..]) {
      assert (a + b)[i..][0] == a[i];
      if Hit(p, (a + b)[i..]) { TagHitStartsWithLt(p, (a + b)[i..]); }
    }
    CopyUnmatched(a, b, p, rep);
  }

  // ---------------------------------------------------------------- character maps

  /** Replace every character by a string. */
  function FlatMap(s: string, f: char -> string): string
    decreases |s|
  {
    if |s| == 0 then "" else f(s[0]) + FlatMap(s[1..], f)
  }

  function Single(c: char): string {
    [c]
  }

  lemma {:induction false} FlatMapSingle(s: string)
    ensures FlatMap(s, Single) == s
    decreases |s|
  {
    if |s| > 0 {
      FlatMapSingle(s[1..]);
      assert s == [s[0]] + s[1..];
    }
  }

  lemma {:induction false} FlatMapConcat(a: string, b: string, f: char -> string)
    ensures FlatMap(a + b, f) == FlatMap(a, f) + FlatMap(b, f)
    decreases |a|
  {
    if |a| > 0 {
      assert (a + b)[0] == a[0] && (a + b)[1..] == a[1..] + b;
      FlatMapConcat(a[1..], b, f);
    } else {
      assert a + b == b;
    }
  }

  /** An occurrence of `t` at position i of `chunk` is ruled out inside the chunk. */
  predicate MismatchAt(chunk: string, t: string, i: nat) {
    exists j :: 0 <= j < |t| && i + j < |chunk| && chunk[i + j] != t[j]
  }

  /** No occurrence of `t` can start inside `chunk`, whatever follows it. */
  predicate NoLitIn(chunk: string, t: string) {
    forall i :: 0 <= i < |chunk| ==> MismatchAt(chunk, t, i)
  }

  /** Replacing a literal in a text built chunk by chunk: each chunk that is the literal
      becomes the replacement, and chunks the literal cannot start in stay. */
  lemma {:induction false} ReplaceLitFlat(s: string, f: char -> string, g: char -> string, t: string, rep: string)
    requires |t| > 0
    requires forall c :: (f(c) == t && g(c) == rep) || (NoLitIn(f(c), t) && g(c) == f(c))
    ensures ReplaceAll(FlatMap(s, f), Lit(t), rep) == FlatMap(s, g)
    decreases |s|
  {
    if |s| > 0 {
      var chunk := f(s[0]);
      var rest := FlatMap(s[1..], f);
      ReplaceLitFlat(s[1..], f, g, t, rep);
      if chunk == t && g(s[0]) == rep {
        assert IsPrefix(t, chunk + rest);
        ReplaceFront(chunk, rest, Lit(t), rep);
      } else {
        forall i | 0 <= i < |chunk| ensures !Hit(Lit(t), (chunk + rest)[i..]) {
          assert MismatchAt(chunk, t, i);
          var j :| 0 <= j < |t| && i + j < |chunk| && chunk[i + j] != t[j];
          assert (chunk + rest)[i..][j] == chunk[i + j];
        }
        CopyUnmatched(chunk, rest, Lit(t), rep);
      }
    }
  }

  /** A single character other than the literal's first cannot start it. */
  lemma SingleNoLit(c: char, t: string)
    requires |t| > 0 && c != t[0]
    ensures NoLitIn([c], t)
  {
    assert MismatchAt([c], t, 0) by { assert [c][0 + 0] != t[0]; }
  }
}
