/**
 Go versions (pkg/version.go): the two accepted spellings, the order, and printing.
 Version numbers are Go `int`s, 64 bits wide.
 */
module Versions {
  import opened Text

  const MAX_INT: int := 0x7FFF_FFFF_FFFF_FFFF
  const TWO_64: int := 0x1_0000_0000_0000_0000

  /** The value a 64-bit two's complement register holds after an operation with exact result `x`. */
  function Wrap64(x: int): int {
    (x + MAX_INT + 1) % TWO_64 - MAX_INT - 1
  }

  datatype Version = Version(major: int, minor: int, patch: int, raw: string) {

    function Compare(other: Version): int {
      var byMajor := Wrap64(major - other.major);
      if byMajor != 0 then byMajor
      else
        var byMinor := Wrap64(minor - other.minor);
        if byMinor != 0 then byMinor else Wrap64(patch - other.patch)
    }

    predicate Less(other: Version) {
      Compare(other) < 0
    }

    function Number(): string {
      Itoa(major) + "." + Itoa(minor) + "." + Itoa(patch)
    }

    function String(): string {
      "go" + Number()
    }

    function Triple(): (int, int, int) {
      (major, minor, patch)
    }

    /** What every parsed version satisfies. */
    predicate InRange() {
      0 <= major <= MAX_INT && 0 <= minor <= MAX_INT && 0 <= patch <= MAX_INT
    }
  }

  // ---------------------------------------------------------------- parsing

  predicate IsNumeral(s: string) {
    s != "" && AllDigits(s)
  }

  function Atoi(s: string): Option<int>
    requires IsNumeral(s)
  {
    if Value(s) <= MAX_INT then Some(Value(s)) else None
  }

  /** The capture groups of the pattern prefix + digits '.' digits ['.' digits]; a missing third group is "". */
  function Submatches(prefix: string, s: string): Option<(string, string, string)> {
    if !HasPrefix(s, prefix) then None
    else
      var parts := Split(s[|prefix|..], '.');
      if !(forall i :: 0 <= i < |parts| ==> IsNumeral(parts[i])) then None
      else if |parts| == 2 then Some((parts[0], parts[1], ""))
      else if |parts| == 3 then Some((parts[0], parts[1], parts[2]))
      else None
  }

  function ParseVersion(prefix: string, s: string): (r: Option<Version>)
    ensures r.Some? ==> r.value.InRange() && r.value.raw == s && s != ""
  {
    match Submatches(prefix, s)
    case None => None
    case Some((a, b, c)) =>
      match (Atoi(a), Atoi(b), if c == "" then Some(0) else Atoi(c))
      case (Some(major), Some(minor), Some(patch)) => Some(Version(major, minor, patch, s))
      case _ => None
  }

  function ParseGoRelease(s: string): Option<Version> {
    ParseVersion("go", s)
  }

  function ParseGoDirective(s: string): Option<Version> {
    ParseVersion("", s)
  }

  /** The regular expression read as a grammar on characters, with every number below 2^63. */
  ghost predicate Spells(prefix: string, s: string, v: Version) {
    exists a: string, b: string, c: string {:trigger SpelledBy(prefix, s, v, a, b, c)} :: SpelledBy(prefix, s, v, a, b, c)
  }

  ghost predicate SpelledBy(prefix: string, s: string, v: Version, a: string, b: string, c: string) {
    && Decimal(a) && Decimal(b) && (c == "" || Decimal(c))
    && s == prefix + a + "." + b + (if c == "" then "" else "." + c)
    && v == Version(Worth(a), Worth(b), if c == "" then 0 else Worth(c), s)
    && v.major < 0x8000_0000_0000_0000 && v.minor < 0x8000_0000_0000_0000 && v.patch < 0x8000_0000_0000_0000
  }

  lemma NumeralMeans(s: string)
    ensures IsNumeral(s) <==> Decimal(s)
    ensures IsNumeral(s) ==> Value(s) == Worth(s)
  {
    NumeralIsDecimal(s);
    if IsNumeral(s) {
      ValueIsWorth(s);
    }
  }

  lemma DigitsHaveNoDot(s: string)
    requires AllDigits(s)
    ensures Free(s, '.') && Free(s, '-')
  {}

  /** Cutting a spelled body at its dots gives the numerals back. */
  lemma SplitNumerals(a: string, b: string, c: string)
    requires IsNumeral(a) && IsNumeral(b) && IsNumeral(c)
    ensures Split(a + "." + b, '.') == [a, b]
    ensures Split(a + "." + b + ("." + c), '.') == [a, b, c]
  {
    DigitsHaveNoDot(a);
    DigitsHaveNoDot(b);
    DigitsHaveNoDot(c);
    SplitWord(c, "", '.');
    SplitWord(b, "", '.');
    SplitWord(b, c, '.');
    SplitWord(a, b, '.');
    SplitWord(a, b + "." + c, '.');
    assert a + "." + b + ("." + c) == a + "." + (b + "." + c);
  }

  lemma JoinNumerals(parts: seq<string>)
    ensures |parts| == 2 ==> Join(parts, '.') == parts[0] + "." + parts[1]
    ensures |parts| == 3 ==> Join(parts, '.') == parts[0] + "." + parts[1] + ("." + parts[2])
  {
    if |parts| == 3 {
      assert Join(parts[1..], '.') == parts[1] + "." + parts[2];
      assert Join(parts, '.') == parts[0] + "." + Join(parts[1..], '.');
    }
  }

  /** The same in the terms of the parser. */
  ghost predicate ReadsAs(prefix: string, s: string, v: Version, a: string, b: string, c: string) {
    && IsNumeral(a) && IsNumeral(b) && (c == "" || IsNumeral(c))
    && s == prefix + a + "." + b + (if c == "" then "" else "." + c)
    && v == Version(Value(a), Value(b), if c == "" then 0 else Value(c), s)
    && v.InRange()
  }

  lemma ReadsAsSpelled(prefix: string, s: string, v: Version, a: string, b: string, c: string)
    ensures ReadsAs(prefix, s, v, a, b, c) <==> SpelledBy(prefix, s, v, a, b, c)
  {
    hide IsNumeral, Decimal, Value, Worth;
    NumeralMeans(a);
    NumeralMeans(b);
    NumeralMeans(c);
  }

  lemma ReadIsParsed(prefix: string, s: string, v: Version, a: string, b: string, c: string)
    requires ReadsAs(prefix, s, v, a, b, c)
    ensures ParseVersion(prefix, s) == Some(v)
  {
    SplitNumerals(a, b, if c == "" then "0" else c);
    var body := a + "." + b + (if c == "" then "" else "." + c);
    assert s == prefix + body;
    assert s[|prefix|..] == body;
    assert c == "" ==> body == a + "." + b;
    assert Submatches(prefix, s) == Some((a, b, c));
  }

  lemma ParsedIsRead(prefix: string, s: string) returns (a: string, b: string, c: string)
    requires ParseVersion(prefix, s).Some?
    ensures ReadsAs(prefix, s, ParseVersion(prefix, s).value, a, b, c)
  {
    var body := s[|prefix|..];
    var parts := Split(body, '.');
    JoinOfSplit(body, '.');
    JoinNumerals(parts);
    assert s == prefix + body;
    a, b, c := parts[0], parts[1], if |parts| == 2 then "" else parts[2];
    assert body == a + "." + b + (if c == "" then "" else "." + c);
    assert s == prefix + a + "." + b + (if c == "" then "" else "." + c);
  }

  lemma ParseMeansSpelling(prefix: string, s: string, v: Version)
    ensures ParseVersion(prefix, s) == Some(v) <==> Spells(prefix, s, v)
  {
    hide ParseVersion, ReadsAs, SpelledBy;
    if Spells(prefix, s, v) {
      var a, b, c :| SpelledBy(prefix, s, v, a, b, c);
      ReadsAsSpelled(prefix, s, v, a, b, c);
      ReadIsParsed(prefix, s, v, a, b, c);
    }
    if ParseVersion(prefix, s) == Some(v) {
      var a, b, c := ParsedIsRead(prefix, s);
      ReadsAsSpelled(prefix, s, v, a, b, c);
    }
  }

  /**
   A release is accepted with exactly the meaning its pattern gives it, `go` in front, a directive
   without it, and nothing else is accepted.
   */
  lemma ParseMeansPattern(s: string, v: Version)
    ensures ParseGoRelease(s) == Some(v) <==> Spells("go", s, v)
    ensures ParseGoDirective(s) == Some(v) <==> Spells("", s, v)
  {
    ParseMeansSpelling("go", s, v);
    ParseMeansSpelling("", s, v);
  }

  // ------------------------------------------------------- print and parse

  lemma PrintedIsParsed(prefix: string, v: Version)
    requires v.InRange()
    ensures ParseVersion(prefix, prefix + v.Number()) == Some(v.(raw := prefix + v.Number()))
  {
    var a, b, c := Itoa(v.major), Itoa(v.minor), Itoa(v.patch);
    ValueOfDigits(v.major);
    ValueOfDigits(v.minor);
    ValueOfDigits(v.patch);
    hide ParseVersion, Value, Digits;
    assert prefix + v.Number() == prefix + a + "." + b + ("." + c);
    ReadIsParsed(prefix, prefix + v.Number(), v.(raw := prefix + v.Number()), a, b, c);
  }

  /** Printing then parsing, in either spelling, gives the triple back. */
  lemma PrintParse(v: Version)
    requires v.InRange()
    ensures ParseGoDirective(v.Number()) == Some(v.(raw := v.Number()))
    ensures ParseGoRelease(v.String()) == Some(v.(raw := v.String()))
  {
    hide ParseVersion, Version.Number;
    PrintedIsParsed("", v);
    PrintedIsParsed("go", v);
    assert "" + v.Number() == v.Number();
  }

  /** Comparing printed versions, as the watcher does for targets, is comparing versions. */
  lemma NumberInjective(v: Version, w: Version)
    requires v.InRange() && w.InRange()
    ensures v.Number() == w.Number() <==> v.Triple() == w.Triple()
  {
    PrintParse(v);
    PrintParse(w);
  }

  /** A numeral without leading zeros. */
  predicate Canonical(s: string) {
    Decimal(s) && (s[0] == '0' ==> s == "0")
  }

  /** The printed form has three numerals without leading zeros, whatever was parsed: two-part spellings are completed. */
  lemma NumberHasThreeNumerals(v: Version)
    requires v.InRange()
    ensures var parts := Split(v.Number(), '.');
      && |parts| == 3 && Canonical(parts[0]) && Canonical(parts[1]) && Canonical(parts[2])
      && Worth(parts[0]) == v.major && Worth(parts[1]) == v.minor && Worth(parts[2]) == v.patch
  {
    var a, b, c := Itoa(v.major), Itoa(v.minor), Itoa(v.patch);
    SplitNumerals(a, b, c);
    assert v.Number() == a + "." + b + ("." + c);
    ValueOfDigits(v.major);
    ValueOfDigits(v.minor);
    ValueOfDigits(v.patch);
    NumeralMeans(a);
    NumeralMeans(b);
    NumeralMeans(c);
  }

  lemma {:induction false} DigitsAreFew(n: nat, k: nat)
    requires 1 <= k && n < Power(k)
    ensures |Digits(n)| <= k
  {
    if n >= 10 {
      DigitsAreFew(n / 10, k - 1);
    }
  }

  lemma NumberIsShort(v: Version)
    requires v.InRange()
    ensures |v.Number()| <= 59
  {
    assert Power(4) == 10 * Power(3) == 100 * Power(2) == 10_000;
    assert Power(8) == 10 * Power(7) == 100 * Power(6) == 1000 * Power(5) == 100_000_000;
    assert Power(12) == 10 * Power(11) == 100 * Power(10) == 1000 * Power(9) == 10_000 * Power(8);
    assert Power(16) == 10 * Power(15) == 100 * Power(14) == 1000 * Power(13) == 10_000 * Power(12);
    assert Power(19) == 10 * Power(18) == 100 * Power(17) == 1000 * Power(16) == 10_000_000_000_000_000_000;
    DigitsAreFew(v.major, 19);
    DigitsAreFew(v.minor, 19);
    DigitsAreFew(v.patch, 19);
  }

  lemma NumberHasNoDash(v: Version)
    requires v.InRange()
    ensures Free(v.Number(), '-') && v.Number() != ""
  {
    DigitsHaveNoDot(Itoa(v.major));
    DigitsHaveNoDot(Itoa(v.minor));
    DigitsHaveNoDot(Itoa(v.patch));
  }

  // ------------------------------------------------------------------ order

  predicate LexLess(a: (int, int, int), b: (int, int, int)) {
    a.0 < b.0 || (a.0 == b.0 && (a.1 < b.1 || (a.1 == b.1 && a.2 < b.2)))
  }

  /** On parsed versions the subtractions do not overflow and their sign is the lexicographic order. */
  lemma CompareIsLexicographic(v: Version, w: Version)
    requires v.InRange() && w.InRange()
    ensures -MAX_INT <= v.major - w.major <= MAX_INT && Wrap64(v.major - w.major) == v.major - w.major
    ensures v.Compare(w) < 0 <==> LexLess(v.Triple(), w.Triple())
    ensures v.Compare(w) == 0 <==> v.Triple() == w.Triple()
    ensures v.Compare(w) > 0 <==> LexLess(w.Triple(), v.Triple())
  {
    Exact(v.major - w.major);
    Exact(v.minor - w.minor);
    Exact(v.patch - w.patch);
  }

  lemma Exact(x: int)
    requires -MAX_INT <= x <= MAX_INT
    ensures Wrap64(x) == x
  {}

  /** `Less` is a strict weak order whose ties are equal triples. */
  lemma LessIsStrictWeakOrder(u: Version, v: Version, w: Version)
    requires u.InRange() && v.InRange() && w.InRange()
    ensures !u.Less(u)
    ensures u.Less(v) && v.Less(w) ==> u.Less(w)
    ensures !u.Less(v) && !v.Less(w) ==> !u.Less(w)
    ensures !u.Less(v) && !v.Less(u) <==> u.Triple() == v.Triple()
  {
    CompareIsLexicographic(u, u);
    CompareIsLexicographic(u, v);
    CompareIsLexicographic(v, u);
    CompareIsLexicographic(v, w);
    CompareIsLexicographic(u, w);
  }

  /** A register holds the one value of its range that differs from the exact result by a multiple of 2^64. */
  lemma WrapIsCongruent(x: int)
    ensures -0x8000_0000_0000_0000 <= Wrap64(x) < 0x8000_0000_0000_0000
    ensures (Wrap64(x) - x) % 0x1_0000_0000_0000_0000 == 0
  {
    var y := x + MAX_INT + 1;
    assert y == y / TWO_64 * TWO_64 + y % TWO_64;
    assert Wrap64(x) - x == (-(y / TWO_64)) * TWO_64;
  }

  /** Outside the parsed range the same subtraction wraps and the order breaks: the range is needed. */
  lemma CompareOverflowsOutsideRange()
    ensures !Version(-2, 0, 0, "").Less(Version(MAX_INT, 0, 0, ""))
  {
    assert Wrap64(-2 - MAX_INT) == MAX_INT;
  }
}
