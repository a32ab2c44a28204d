/** Colours for deal stages: a keyword table looked up by exact and then partial name,
    a 32-bit string hash choosing among fallback colours, and a colour by funnel
    position. */
module StageColors {
  import opened Common

  /** The colour families of the scheme. */
  datatype Palette = Cornflower | Lavender | Clementine | Orange | ElectricLime | Green | Red | Gray | Mint

  datatype ColorScheme = ColorScheme(bg: string, text: string)

  function PaletteName(p: Palette): string {
    match p
    case Cornflower => "cornflower"
    case Lavender => "lavender"
    case Clementine => "clementine"
    case Orange => "orange"
    case ElectricLime => "electric-lime"
    case Green => "green"
    case Red => "red"
    case Gray => "gray"
    case Mint => "mint"
  }

  /** The CSS variables of a palette: its light-3 shade behind its light-12 text. */
  function SchemeOf(p: Palette): ColorScheme {
    ColorScheme("var(--" + PaletteName(p) + "-light-3)", "var(--" + PaletteName(p) + "-light-12)")
  }

  /** STAGE_COLOR_MAP, section by section in declaration order, the order Object.entries
      yields. */
  const EarlyStages: seq<(string, Palette)> := [
    ("neu", Cornflower), ("new", Cornflower), ("lead", Cornflower), ("incoming", Cornflower), ("eingehend", Cornflower)]
  const QualificationStages: seq<(string, Palette)> := [
    ("qualifiziert", Lavender), ("qualified", Lavender), ("qualification", Lavender), ("qualifikation", Lavender),
    ("discovery", Lavender)]
  const MeetingStages: seq<(string, Palette)> := [
    ("termin", Clementine), ("meeting", Clementine), ("appointment", Clementine), ("demo", Clementine),
    ("präsentation", Clementine), ("presentation", Clementine)]
  const ProposalStages: seq<(string, Palette)> := [
    ("angebot", Orange), ("proposal", Orange), ("verhandlung", Orange), ("negotiation", Orange),
    ("contract", Orange), ("vertrag", Orange)]
  const DecisionStages: seq<(string, Palette)> := [
    ("entscheidung", ElectricLime), ("decision", ElectricLime), ("closing", ElectricLime), ("abschluss", ElectricLime)]
  const WonStages: seq<(string, Palette)> := [
    ("gewonnen", Green), ("won", Green), ("closed won", Green), ("abgeschlossen", Green),
    ("kunde", Green), ("customer", Green), ("aktiv", Green), ("active", Green)]
  const LostStages: seq<(string, Palette)> := [
    ("verloren", Red), ("lost", Red), ("closed lost", Red), ("abgesagt", Red), ("cancelled", Red), ("storniert", Red)]
  const PausedStages: seq<(string, Palette)> := [
    ("pausiert", Gray), ("paused", Gray), ("on hold", Gray), ("wartend", Gray), ("waiting", Gray)]
  const RenewalStages: seq<(string, Palette)> := [
    ("renewal", Mint), ("verlängerung", Mint), ("upsell", Mint), ("expansion", Mint)]

  const StageColorMap: seq<(string, Palette)> :=
    EarlyStages + QualificationStages + MeetingStages + ProposalStages + DecisionStages
    + WonStages + LostStages + PausedStages + RenewalStages

  /** FALLBACK_COLORS. */
  const FallbackColors: seq<Palette> := [Cornflower, Lavender, Clementine, Orange, ElectricLime, Mint, Green]

  // ---------------------------------------------------------------- hashString

  const TwoTo31: int := 0x8000_0000
  const TwoTo32: int := 0x1_0000_0000

  /** ToInt32: the 32-bit two's-complement value congruent to x. */
  function Wrap32(x: int): (r: int)
    ensures -TwoTo31 <= r < TwoTo31
    ensures (r - x) % TwoTo32 == 0
  {
    (x + TwoTo31) % TwoTo32 - TwoTo31
  }

  /** `hash` after the loop has read `s`: each character makes it
      ToInt32(31 * hash + code). */
  function Hash32(s: string): int
    decreases |s|
  {
    if |s| == 0 then 0 else Wrap32(31 * Hash32(s[..|s| - 1]) + s[|s| - 1] as int)
  }

  /** The unbounded polynomial hash: the codes as digits in base 31. */
  function PolyHash(s: string): int
    decreases |s|
  {
    if |s| == 0 then 0 else 31 * PolyHash(s[..|s| - 1]) + s[|s| - 1] as int
  }

  function Abs(x: int): nat {
    if x < 0 then -x else x
  }

  /** Wrapping once at the end is wrapping after every step. */
  lemma WrapStep(x: int, c: int)
    ensures Wrap32(31 * Wrap32(x) + c) == Wrap32(31 * x + c)
  {
    var w := Wrap32(x);
    var k := (w - x) / TwoTo32;
    assert w - x == k * TwoTo32;
    assert 31 * w + c == 31 * x + c + (31 * k) * TwoTo32;
    ShiftWrap(31 * x + c, 31 * k);
  }

  lemma ShiftWrap(y: int, m: int)
    ensures Wrap32(y + m * TwoTo32) == Wrap32(y)
  {
    assert (y + m * TwoTo32 + TwoTo31) % TwoTo32 == (y + TwoTo31) % TwoTo32;
  }

  /** The 32-bit hash is the polynomial hash reduced to 32 bits. */
  lemma {:induction false} Hash32IsPolyHash(s: string)
    ensures Hash32(s) == Wrap32(PolyHash(s))
    decreases |s|
  {
    if |s| > 0 {
      Hash32IsPolyHash(s[..|s| - 1]);
      WrapStep(PolyHash(s[..|s| - 1]), s[|s| - 1] as int);
    } else {
      assert Wrap32(0) == 0;
    }
  }

  /** hashString: the loop over the characters, then Math.abs. */
  method HashString(s: string) returns (h: nat)
    ensures h == Abs(Hash32(s))
    ensures h <= TwoTo31
  {
    var hash := 0;
    var i := 0;
    while i < |s|
      invariant 0 <= i <= |s|
      invariant hash == Hash32(s[..i])
    {
      assert s[..i + 1][..i] == s[..i];
      hash := Wrap32(31 * hash + s[i] as int);
      i := i + 1;
    }
    assert s[..|s|] == s;
    h := Abs(hash);
  }

  // ---------------------------------------------------------------- getStageColor

  /** The normalised name: lowercased, then trimmed. */
  function Normalize(stageName: string): string {
    Trim(ToLower(stageName))
  }

  /** What `STAGE_COLOR_MAP[name]` finds: a table entry, or a member every object
      inherits from Object.prototype. */
  datatype Found = Colors(palette: Palette) | ObjectMember(key: string)

  /** The inherited members whose names are all lower case, so a normalised name can
      reach them. */
  predicate IsPrototypeKey(name: string) {
    name == "constructor" || name == "__proto__"
  }

  function KeyIndex(name: string, i: nat): (r: Option<nat>)
    requires i <= |StageColorMap|
    ensures r.Some? ==> i <= r.value < |StageColorMap| && StageColorMap[r.value].0 == name
    ensures r.None? ==> forall k :: i <= k < |StageColorMap| ==> StageColorMap[k].0 != name
    decreases |StageColorMap| - i
  {
    if i == |StageColorMap| then None
    else if StageColorMap[i].0 == name then Some(i)
    else KeyIndex(name, i + 1)
  }

  /** The table's own entry for the name. */
  function OwnEntry(name: string): Option<Palette> {
    match KeyIndex(name, 0)
    case None => None
    case Some(k) => Some(StageColorMap[k].1)
  }

  predicate PartialMatch(name: string, keyword: string) {
    Contains(name, keyword) || Contains(keyword, name)
  }

  /** The first entry from i on whose keyword is in the name or holds the name. */
  function PartialFrom(name: string, i: nat): (r: Option<nat>)
    requires i <= |StageColorMap|
    ensures r.Some? ==> (
      && i <= r.value < |StageColorMap| && PartialMatch(name, StageColorMap[r.value].0)
      && forall k :: i <= k < r.value ==> !PartialMatch(name, StageColorMap[k].0))
    ensures r.None? ==> forall k :: i <= k < |StageColorMap| ==> !PartialMatch(name, StageColorMap[k].0)
    decreases |StageColorMap| - i
  {
    if i == |StageColorMap| then None
    else if PartialMatch(name, StageColorMap[i].0) then Some(i)
    else PartialFrom(name, i + 1)
  }

  /** The fallback colour of a name. */
  function FallbackFor(name: string): Palette {
    FallbackColors[Abs(Hash32(name)) % |FallbackColors|]
  }

  /** getStageColor as written: the direct lookup also reaches inherited members. */
  function StageColorAsWritten(stageName: string): Found {
    var n := Normalize(stageName);
    if OwnEntry(n).Some? then Colors(OwnEntry(n).value)
    else if IsPrototypeKey(n) then ObjectMember(n)
    else match PartialFrom(n, 0)
      case Some(k) => Colors(StageColorMap[k].1)
      case None => Colors(FallbackFor(n))
  }

  /** getStageColor with the direct lookup restricted to the table's own keys. */
  function StageColor(stageName: string): Palette {
    var n := Normalize(stageName);
    if OwnEntry(n).Some? then OwnEntry(n).value
    else match PartialFrom(n, 0)
      case Some(k) => StageColorMap[k].1
      case None => FallbackFor(n)
  }

  /** getStageColor: the direct lookup, then the keyword loop with its early return, then
      the hash. */
  method GetStageColor(stageName: string) returns (r: Found)
    ensures r == StageColorAsWritten(stageName)
    ensures !IsPrototypeKey(Normalize(stageName)) ==> r == Colors(StageColor(stageName))
  {
    var n := Trim(ToLower(stageName));
    if OwnEntry(n).Some? {
      return Colors(OwnEntry(n).value);
    }
    if IsPrototypeKey(n) {
      return ObjectMember(n);
    }
    var i := 0;
    while i < |StageColorMap|
      invariant 0 <= i <= |StageColorMap|
      invariant PartialFrom(n, i) == PartialFrom(n, 0)
    {
      var (keyword, colors) := StageColorMap[i];
      if Contains(n, keyword) || Contains(keyword, n) {
        assert PartialFrom(n, 0) == Some(i);
        return Colors(colors);
      }
      i := i + 1;
    }
    assert PartialFrom(n, 0).None?;
    var h := HashString(n);
    return Colors(FallbackColors[h % |FallbackColors|]);
  }

  predicate NoKey(section: seq<(string, Palette)>, name: string) {
    forall k :: 0 <= k < |section| ==> section[k].0 != name
  }

  /** The empty name and the inherited names are no keys of the table. */
  lemma NotAKey(name: string)
    requires name == "" || IsPrototypeKey(name)
    ensures OwnEntry(name).None?
  {
    assert NoKey(EarlyStages, name) && NoKey(QualificationStages, name) && NoKey(MeetingStages, name);
    assert NoKey(ProposalStages, name) && NoKey(DecisionStages, name) && NoKey(WonStages, name);
    assert NoKey(LostStages, name) && NoKey(PausedStages, name) && NoKey(RenewalStages, name);
    assert NoKey(StageColorMap, name);
  }

  /** The colour depends on the name only through its lowercased, trimmed form; an
      exact key wins; otherwise the first keyword in table order that is in the name or
      holds it; otherwise the hash picks a valid fallback index. */
  lemma StageColorSpec(stageName: string)
    ensures var n := Normalize(stageName);
      && (OwnEntry(n).Some? ==>
            exists k :: 0 <= k < |StageColorMap| && StageColorMap[k].0 == n && StageColor(stageName) == StageColorMap[k].1)
      && (OwnEntry(n).None? && PartialFrom(n, 0).Some? ==>
            StageColor(stageName) == StageColorMap[PartialFrom(n, 0).value].1)
      && (OwnEntry(n).None? && PartialFrom(n, 0).None? ==>
            (forall k :: 0 <= k < |StageColorMap| ==> !Contains(n, StageColorMap[k].0) && !Contains(StageColorMap[k].0, n))
            && 0 <= Abs(Hash32(n)) % 7 < |FallbackColors|
            && StageColor(stageName) == FallbackColors[Abs(Hash32(n)) % 7])
  {
  }

  /** Names equal up to case and outer white space get the same colour. */
  lemma SameNormalFormSameColor(a: string, b: string)
    requires Normalize(a) == Normalize(b)
    ensures StageColor(a) == StageColor(b)
  {
  }

  /** The empty name is in every keyword, so it gets the first entry's colour. */
  lemma EmptyNameIsNeu()
    ensures StageColor("") == Cornflower
  {
    assert ToLower("") == "";
    TrimmedUnchanged("");
    NotAKey("");
    ContainsEmpty("neu");
    assert PartialMatch("", StageColorMap[0].0);
  }

  /** Every name gets a colour from the table or from the fallbacks. */
  lemma StageColorInScheme(stageName: string)
    ensures StageColor(stageName) in FallbackColors || exists k :: 0 <= k < |StageColorMap| && StageColorMap[k].1 == StageColor(stageName)
  {
    var n := Normalize(stageName);
    match KeyIndex(n, 0)
    case Some(k) =>
      assert StageColor(stageName) == StageColorMap[k].1;
    case None =>
      match PartialFrom(n, 0)
      case Some(k) =>
        assert StageColor(stageName) == StageColorMap[k].1;
      case None =>
        var h := Abs(Hash32(n)) % |FallbackColors|;
        assert StageColor(stageName) == FallbackColors[h];
  }

  lemma NormalizeConstructor()
    ensures Normalize("Constructor") == "constructor"
  {
    TrimLowerCapitalized("Constructor", "constructor");
  }

  /** As written, a stage called "Constructor" reads Object.prototype.constructor from the
      table and gets no colours. */
  lemma ConstructorStageHasNoColors()
    ensures StageColorAsWritten("Constructor") == ObjectMember("constructor")
  {
    NormalizeConstructor();
    NotAKey("constructor");
  }

  /** The corrected lookup agrees with the code everywhere but the inherited names. */
  lemma StageColorAgrees(stageName: string)
    requires !IsPrototypeKey(Normalize(stageName))
    ensures StageColorAsWritten(stageName) == Colors(StageColor(stageName))
  {
  }

  // ---------------------------------------------------------------- by position

  /** getStageColorByPosition: won is green (even if also lost), lost is red, otherwise the
      fifth of the funnel that position / max(totalStages - 1, 1) falls in. */
  function StageColorByPosition(position: int, totalStages: int, isWon: bool, isLost: bool): Palette {
    if isWon then Green
    else if isLost then Red
    else
      var d := if totalStages - 1 > 1 then totalStages - 1 else 1;
      if 5 * position < d then Cornflower
      else if 5 * position < 2 * d then Lavender
      else if 5 * position < 3 * d then Clementine
      else if 5 * position < 4 * d then Orange
      else ElectricLime
  }

  /** The fifth a position falls in, 0 to 4. */
  function Band(p: Palette): int {
    match p
    case Cornflower => 0
    case Lavender => 1
    case Clementine => 2
    case Orange => 3
    case _ => 4
  }

  /** The first stage is cornflower, the last of two or more is electric lime, and the
      colour never moves back along the funnel. */
  lemma ByPositionSpec(p: int, q: int, totalStages: int)
    requires 0 <= p <= q
    ensures StageColorByPosition(0, totalStages, false, false) == Cornflower
    ensures totalStages >= 2 ==> StageColorByPosition(totalStages - 1, totalStages, false, false) == ElectricLime
    ensures Band(StageColorByPosition(p, totalStages, false, false)) <= Band(StageColorByPosition(q, totalStages, false, false))
    ensures StageColorByPosition(p, totalStages, true, true) == Green
    ensures StageColorByPosition(p, totalStages, false, true) == Red
  {
  }
}
