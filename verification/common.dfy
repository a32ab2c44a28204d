/** Values and string operations shared by the whole model: the optional value,
    the JavaScript string methods the dashboard relies on (toLowerCase, includes,
    startsWith, endsWith, trim, split, join) and an order-preserving filter. */
module Common {

  datatype Option<+T> = None | Some(value: T) {
    function GetOr(default: T): T {
      match this
      case Some(v) => v
      case None => default
    }
  }

  /** JavaScript truthiness of an optional string. */
  predicate Truthy(o: Option<string>) {
    o.Some? && o.value != ""
  }

  /** `new Date(text).getTime()`: epoch milliseconds, or None where JavaScript gives NaN. */
  type Parser = string -> Option<int>

  const MsPerDay: int := 86_400_000

  /** Math.floor((now - start) / 86 400 000): whole days elapsed. Dafny's `/` is
      Euclidean, which is flooring for a positive divisor. */
  function DaysBetween(start: int, now: int): (d: int)
    ensures d * MsPerDay <= now - start < (d + 1) * MsPerDay
  {
    (now - start) / MsPerDay
  }

  // ---------------------------------------------------------------- characters

  /** The characters JavaScript's `\s` and String.prototype.trim treat as white space. */
  predicate IsWhite(c: char) {
    c == ' ' || c == '\t' || c == '\n' || c == '\U{000B}' || c == '\U{000C}' || c == '\r'
    || c == '\U{00A0}' || c == '\U{1680}' || ('\U{2000}' <= c <= '\U{200A}')
    || c == '\U{2028}' || c == '\U{2029}' || c == '\U{202F}' || c == '\U{205F}'
    || c == '\U{3000}' || c == '\U{FEFF}'
  }

  /** toLowerCase on one character, for ASCII and the Latin-1 capitals. */
  function LowerChar(c: char): (r: char)
    ensures ('A' <= c <= 'Z') ==> r as int == c as int + 32
    ensures !('A' <= c <= 'Z') && !('\U{C0}' <= c <= '\U{DE}') ==> r == c
  {
    if 'A' <= c <= 'Z' then (c as int + 32) as char
    else if '\U{C0}' <= c <= '\U{DE}' && c != '\U{D7}' then (c as int + 32) as char
    else c
  }

  function ToLower(s: string): (r: string)
    ensures |r| == |s|
    ensures forall i :: 0 <= i < |s| ==> r[i] == LowerChar(s[i])
  {
    if |s| == 0 then "" else [LowerChar(s[0])] + ToLower(s[1..])
  }

  /** A capitalised lower-case ASCII word lowers to the same word with its first letter
      lowered. */
  lemma LowerCapitalized(s: string, t: string)
    requires |s| == |t| > 0
    requires 'A' <= s[0] <= 'Z' && t[0] as int == s[0] as int + 32
    requires forall i :: 1 <= i < |s| ==> s[i] == t[i] && 'a' <= s[i] <= 'z'
    ensures ToLower(s) == t
  {
    var r := ToLower(s);
    forall i | 0 <= i < |s|
      ensures r[i] == t[i]
    {
      if i > 0 {
        assert 'a' <= s[i] <= 'z';
      }
    }
  }

  // ---------------------------------------------------------------- substrings

  predicate IsPrefix(p: string, s: string) {
    |p| <= |s| && s[..|p|] == p
  }

  /** String.prototype.startsWith. */
  predicate StartsWith(s: string, p: string) {
    IsPrefix(p, s)
  }

  /** String.prototype.endsWith. */
  predicate EndsWith(s: string, suffix: string) {
    |suffix| <= |s| && s[|s| - |suffix|..] == suffix
  }

  /** String.prototype.includes: `sub` occurs at some position of `s`. */
  predicate Contains(s: string, sub: string)
    decreases |s|
  {
    IsPrefix(sub, s) || (|s| > 0 && Contains(s[1..], sub))
  }

  /** Contains means an occurrence at some index, and conversely. */
  lemma {:induction false} ContainsAt(s: string, sub: string)
    ensures Contains(s, sub) <==> exists i :: 0 <= i <= |s| && IsPrefix(sub, s[i..])
    decreases |s|
  {
    if IsPrefix(sub, s) {
      assert s[0..] == s;
    } else if |s| > 0 {
      ContainsAt(s[1..], sub);
      if exists i :: 0 <= i <= |s| && IsPrefix(sub, s[i..]) {
        var i :| 0 <= i <= |s| && IsPrefix(sub, s[i..]);
        assert i != 0;
        assert s[1..][i - 1..] == s[i..];
      }
      forall i | 1 <= i <= |s| && IsPrefix(sub, s[i..])
        ensures IsPrefix(sub, s[1..][i - 1..])
      {
        assert s[1..][i - 1..] == s[i..];
      }
    } else {
      assert forall i :: 0 <= i <= |s| ==> i == 0 && s[i..] == s;
    }
  }

  /** A string contains itself embedded anywhere. */
  lemma {:induction false} ContainsConcat(a: string, sub: string, b: string)
    ensures Contains(a + sub + b, sub)
    decreases |a|
  {
    if |a| == 0 {
      assert (a + sub + b)[..|sub|] == sub;
    } else {
      assert (a + sub + b)[1..] == a[1..] + sub + b;
      ContainsConcat(a[1..], sub, b);
    }
  }

  /** A string without the first character of `sub` does not contain `sub`. */
  lemma {:induction false} NotContainsFirst(s: string, sub: string)
    requires |sub| > 0 && sub[0] !in s
    ensures !Contains(s, sub)
    decreases |s|
  {
    if |s| > 0 {
      assert s[0] != sub[0];
      NotContainsFirst(s[1..], sub);
    }
  }

  /** Every string contains the empty string. */
  lemma ContainsEmpty(s: string)
    ensures Contains(s, "")
  {
    assert IsPrefix("", s);
  }

  /** `Contains(s, sub)` true with a witness. */
  lemma ContainsWitness(s: string, sub: string, i: nat)
    requires i <= |s| && IsPrefix(sub, s[i..])
    ensures Contains(s, sub)
  {
    ContainsAt(s, sub);
  }

  /** An occurrence of an occurrence is an occurrence. */
  lemma ContainsTrans(s: string, a: string, b: string)
    requires Contains(s, a) && Contains(a, b)
    ensures Contains(s, b)
  {
    ContainsAt(s, a);
    ContainsAt(a, b);
    var i :| 0 <= i <= |s| && IsPrefix(a, s[i..]);
    var j :| 0 <= j <= |a| && IsPrefix(b, a[j..]);
    assert i + j + |b| <= |s|;
    forall k | 0 <= k < |b|
      ensures s[i + j..][k] == b[k]
    {
      assert a[j..][..|b|][k] == b[k];
      assert s[i..][..|a|][j + k] == a[j + k];
    }
    assert s[i + j..][..|b|] == b;
    ContainsWitness(s, b, i + j);
  }

  // ---------------------------------------------------------------- numbers as text

  function DigitChar(d: nat): char
    requires d < 10
  {
    (('0' as int) + d) as char
  }

  predicate IsDigits(s: string) {
    forall k :: 0 <= k < |s| ==> '0' <= s[k] <= '9'
  }

  /** Number.prototype.toString for a non-negative integer: its decimal digits. */
  function NatToString(n: nat): (r: string)
    ensures |r| >= 1 && IsDigits(r)
    ensures |r| > 1 ==> r[0] != '0'
    decreases n
  {
    if n < 10 then [DigitChar(n)] else NatToString(n / 10) + [DigitChar(n % 10)]
  }

  /** The value of a string of decimal digits. */
  function DigitsValue(s: string): nat
    requires IsDigits(s)
    decreases |s|
  {
    if |s| == 0 then 0 else DigitsValue(s[..|s| - 1]) * 10 + (s[|s| - 1] as int - '0' as int)
  }

  /** The digits read back as the number written. */
  lemma {:induction false} NatToStringRoundTrip(n: nat)
    ensures DigitsValue(NatToString(n)) == n
    decreases n
  {
    if n >= 10 {
      NatToStringRoundTrip(n / 10);
      var r := NatToString(n);
      assert r[..|r| - 1] == NatToString(n / 10);
    }
  }

  /** Different numbers are written differently. */
  lemma NatToStringInjective(m: nat, n: nat)
    requires NatToString(m) == NatToString(n)
    ensures m == n
  {
    NatToStringRoundTrip(m);
    NatToStringRoundTrip(n);
  }

  // ---------------------------------------------------------------- trim

  function TrimStart(s: string): (r: string)
    ensures |r| <= |s| && r == s[|s| - |r|..]
    ensures |r| > 0 ==> !IsWhite(r[0])
    ensures forall i :: 0 <= i < |s| - |r| ==> IsWhite(s[i])
  {
    if |s| > 0 && IsWhite(s[0]) then TrimStart(s[1..]) else s
  }

  function TrimEnd(s: string): (r: string)
    ensures |r| <= |s| && r == s[..|r|]
    ensures |r| > 0 ==> !IsWhite(r[|r| - 1])
    ensures forall i :: |r| <= i < |s| ==> IsWhite(s[i])
  {
    if |s| > 0 && IsWhite(s[|s| - 1]) then TrimEnd(s[..|s| - 1]) else s
  }

  /** String.prototype.trim. */
  function Trim(s: string): string {
    TrimEnd(TrimStart(s))
  }

  /** trim removes exactly the white space at both ends: the result is a slice of the
      input with no white space at either end, and everything cut off is white space. */
  lemma TrimSlice(s: string)
    ensures exists i, j ::
              && 0 <= i <= j <= |s| && Trim(s) == s[i..j]
              && (forall k :: 0 <= k < i ==> IsWhite(s[k]))
              && (forall k :: j <= k < |s| ==> IsWhite(s[k]))
    ensures |Trim(s)| > 0 ==> !IsWhite(Trim(s)[0]) && !IsWhite(Trim(s)[|Trim(s)| - 1])
  {
    var t := TrimStart(s);
    var i := |s| - |t|;
    var e := TrimEnd(t);
    var j := i + |e|;
    assert t == s[i..];
    assert e == t[..|e|];
    assert Trim(s) == s[i..j] by {
      assert s[i..][..|e|] == s[i..j];
    }
    forall k | j <= k < |s| ensures IsWhite(s[k]) {
      assert s[k] == t[k - i];
    }
    assert forall k :: 0 <= k < i ==> IsWhite(s[k]);
  }

  /** A text with no white space at its ends trims to itself. */
  lemma TrimmedUnchanged(s: string)
    requires |s| == 0 || (!IsWhite(s[0]) && !IsWhite(s[|s| - 1]))
    ensures Trim(s) == s
  {
    var t := TrimStart(s);
    if |s| - |t| > 0 {
      assert IsWhite(s[0]);
    }
    assert t == s;
  }

  /** A capitalised lower-case ASCII word normalises to the word with its first letter
      lowered. */
  lemma TrimLowerCapitalized(s: string, t: string)
    requires |s| == |t| > 0
    requires 'A' <= s[0] <= 'Z' && t[0] as int == s[0] as int + 32
    requires forall i :: 1 <= i < |s| ==> s[i] == t[i] && 'a' <= s[i] <= 'z'
    ensures Trim(ToLower(s)) == t
  {
    LowerCapitalized(s, t);
    assert 'a' <= t[|t| - 1] <= 'z';
    TrimmedUnchanged(t);
  }

  /** Trim is idempotent. */
  lemma TrimTwice(s: string)
    ensures Trim(Trim(s)) == Trim(s)
  {
    TrimSlice(s);
    TrimmedUnchanged(Trim(s));
  }

  /** A string is blank (trims to '') exactly when all of it is white space. */
  lemma {:induction false} TrimEmptyIffBlank(s: string)
    ensures Trim(s) == "" <==> forall k :: 0 <= k < |s| ==> IsWhite(s[k])
    decreases |s|
  {
    if |s| > 0 && IsWhite(s[0]) {
      TrimEmptyIffBlank(s[1..]);
      assert forall k :: 1 <= k < |s| ==> s[k] == s[1..][k - 1];
    }
  }

  // ---------------------------------------------------------------- split / join

  /** String.prototype.split with a one-character separator: always at least one piece. */
  function Split(s: string, sep: char): (r: seq<string>)
    ensures |r| >= 1
    ensures forall k :: 0 <= k < |r| ==> sep !in r[k]
    decreases |s|
  {
    if |s| == 0 then [""]
    else
      var rest := Split(s[1..], sep);
      if s[0] == sep then [""] + rest
      else [[s[0]] + rest[0]] + rest[1..]
  }

  /** Array.prototype.join. */
  function Join(parts: seq<string>, sep: string): string {
    if |parts| == 0 then ""
    else if |parts| == 1 then parts[0]
    else parts[0] + sep + Join(parts[1..], sep)
  }

  /** Joining the pieces of a split with the separator gives back the string. */
  lemma {:induction false} JoinSplit(s: string, sep: char)
    ensures Join(Split(s, sep), [sep]) == s
    decreases |s|
  {
    if |s| > 0 {
      var rest := Split(s[1..], sep);
      JoinSplit(s[1..], sep);
      if s[0] != sep {
        var r := Split(s, sep);
        if |rest| == 1 {
          assert r == [[s[0]] + rest[0]];
        } else {
          assert r[1..] == rest[1..];
          assert Join(r, [sep]) == [s[0]] + rest[0] + [sep] + Join(rest[1..], [sep]);
        }
      } else {
        assert [s[0]] == [sep];
      }
    }
  }

  // ---------------------------------------------------------------- filter

  /** Array.prototype.filter: the order-preserving subsequence of elements satisfying p. */
  function Filter<T>(xs: seq<T>, p: T -> bool): (r: seq<T>)
    ensures |r| <= |xs|
    ensures forall k :: 0 <= k < |r| ==> p(r[k]) && r[k] in xs
    decreases |xs|
  {
    if |xs| == 0 then []
    else if p(xs[0]) then [xs[0]] + Filter(xs[1..], p)
    else Filter(xs[1..], p)
  }

  /** An element survives the filter exactly when it is in the input and satisfies p. */
  lemma {:induction false} FilterMembership<T>(xs: seq<T>, p: T -> bool, x: T)
    ensures x in Filter(xs, p) <==> x in xs && p(x)
    decreases |xs|
  {
    if |xs| > 0 {
      FilterMembership(xs[1..], p, x);
      assert x in xs <==> x == xs[0] || x in xs[1..];
    }
  }

  /** Filtering with a predicate every element satisfies returns the input unchanged. */
  lemma {:induction false} FilterAll<T>(xs: seq<T>, p: T -> bool)
    requires forall k :: 0 <= k < |xs| ==> p(xs[k])
    ensures Filter(xs, p) == xs
    decreases |xs|
  {
    if |xs| > 0 {
      FilterAll(xs[1..], p);
      assert [xs[0]] + xs[1..] == xs;
    }
  }

  /** Filtering with a predicate no element satisfies returns nothing. */
  lemma {:induction false} FilterNone<T>(xs: seq<T>, p: T -> bool)
    requires forall k :: 0 <= k < |xs| ==> !p(xs[k])
    ensures Filter(xs, p) == []
    decreases |xs|
  {
    if |xs| > 0 {
      FilterNone(xs[1..], p);
    }
  }

  /** Filters with predicates that agree on the input give the same result. */
  lemma {:induction false} FilterCongruent<T>(xs: seq<T>, p: T -> bool, q: T -> bool)
    requires forall k :: 0 <= k < |xs| ==> p(xs[k]) == q(xs[k])
    ensures Filter(xs, p) == Filter(xs, q)
    decreases |xs|
  {
    if |xs| > 0 {
      FilterCongruent(xs[1..], p, q);
    }
  }

  /** Filter distributes over concatenation. */
  lemma {:induction false} FilterConcat<T>(xs: seq<T>, ys: seq<T>, p: T -> bool)
    ensures Filter(xs + ys, p) == Filter(xs, p) + Filter(ys, p)
    decreases |xs|
  {
    if |xs| == 0 {
      assert xs + ys == ys;
    } else {
      assert (xs + ys)[1..] == xs[1..] + ys;
      FilterConcat(xs[1..], ys, p);
    }
  }
}
