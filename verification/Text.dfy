/**
 The text primitives the watcher builds on: decimal numbers, splitting and joining on a
 separator, white space. A character stands for one byte of ASCII text.
 */
module Text {

  datatype Option<+T> = None | Some(value: T)

  predicate HasPrefix(s: string, prefix: string) {
    prefix <= s
  }

  predicate Free(s: string, sep: char) {
    sep !in s
  }

  // ---------------------------------------------------------------- numbers

  predicate IsDigit(c: char) {
    '0' <= c <= '9'
  }

  predicate AllDigits(s: string) {
    forall i :: 0 <= i < |s| ==> IsDigit(s[i])
  }

  /** Decimal digits without leading zeros. */
  function Digits(n: nat): (s: string)
    ensures s != "" && AllDigits(s)
    ensures s[0] == '0' ==> s == "0"
    ensures n > 0 ==> s[0] != '0'
  {
    var last := [('0' as int + n % 10) as char];
    if n < 10 then last else Digits(n / 10) + last
  }

  function Itoa(n: int): string {
    if n < 0 then "-" + Digits(-n) else Digits(n)
  }

  function Value(s: string): nat
    requires AllDigits(s)
  {
    if s == "" then 0
    else Value(s[..|s| - 1]) * 10 + (s[|s| - 1] as int - '0' as int)
  }

  lemma {:induction false} ValueOfDigits(n: nat)
    ensures Value(Digits(n)) == n
  {
    var last := [('0' as int + n % 10) as char];
    if n < 10 {
      assert last[..0] == "";
    } else {
      ValueOfDigits(n / 10);
      assert (Digits(n / 10) + last)[..|Digits(n)| - 1] == Digits(n / 10);
    }
  }

  const DECIMALS := "0123456789"

  /** A numeral, by its characters. */
  predicate Decimal(s: string) {
    s != "" && forall i :: 0 <= i < |s| ==> s[i] in DECIMALS
  }

  function Power(k: nat): nat {
    if k == 0 then 1 else 10 * Power(k - 1)
  }

  function DigitOf(c: char): nat {
    if c in DECIMALS then c as int - '0' as int else 0
  }

  /** What a numeral is worth: every digit times the power of ten of its place. */
  function Worth(s: string): nat {
    if s == "" then 0 else DigitOf(s[0]) * Power(|s| - 1) + Worth(s[1..])
  }

  lemma DigitIsDecimal(c: char)
    ensures IsDigit(c) <==> c in DECIMALS
  {
    assert forall d: char :: d in DECIMALS ==> '0' <= d <= '9';
    if '0' <= c <= '9' {
      assert DECIMALS[c as int - '0' as int] == c;
    }
  }

  lemma NumeralIsDecimal(s: string)
    ensures s != "" && AllDigits(s) <==> Decimal(s)
  {
    forall i | 0 <= i < |s|
      ensures IsDigit(s[i]) <==> s[i] in DECIMALS
    {
      DigitIsDecimal(s[i]);
    }
  }

  lemma {:induction false} WorthSnoc(s: string, d: char)
    ensures Worth(s + [d]) == 10 * Worth(s) + DigitOf(d)
  {
    hide DigitOf;
    if s == "" {
      assert s + [d] == [d] && [d][1..] == "";
    } else {
      WorthSnoc(s[1..], d);
      assert (s + [d])[1..] == s[1..] + [d] && (s + [d])[0] == s[0];
      Scaled(DigitOf(s[0]), Power(|s| - 1));
    }
  }

  lemma Scaled(a: nat, p: nat)
    ensures a * (10 * p) == 10 * (a * p)
  {}

  /** Reading digit by digit from the left, as the parser does, gives what the numeral is worth. */
  lemma {:induction false} ValueIsWorth(s: string)
    requires AllDigits(s)
    ensures Value(s) == Worth(s)
  {
    if s != "" {
      ValueIsWorth(s[..|s| - 1]);
      DigitIsDecimal(s[|s| - 1]);
      WorthSnoc(s[..|s| - 1], s[|s| - 1]);
      assert s[..|s| - 1] + [s[|s| - 1]] == s;
    }
  }

  // -------------------------------------------------------- split and join

  function Split(s: string, sep: char): (parts: seq<string>)
    ensures parts != []
    ensures forall i :: 0 <= i < |parts| ==> Free(parts[i], sep)
  {
    if s == "" then [""]
    else
      var rest := Split(s[1..], sep);
      if s[0] == sep then [""] + rest else [[s[0]] + rest[0]] + rest[1..]
  }

  function Join(parts: seq<string>, sep: char): string
    requires parts != []
  {
    if |parts| == 1 then parts[0] else parts[0] + [sep] + Join(parts[1..], sep)
  }

  lemma {:induction false} JoinOfSplit(s: string, sep: char)
    ensures Join(Split(s, sep), sep) == s
  {
    if s != "" {
      JoinOfSplit(s[1..], sep);
      var rest := Split(s[1..], sep);
      if s[0] == sep {
        assert ([""] + rest)[1..] == rest;
      } else {
        var parts := [[s[0]] + rest[0]] + rest[1..];
        assert parts[1..] == rest[1..];
        assert [s[0]] + s[1..] == s;
      }
    }
  }

  /** Splitting a text that starts with a separator-free word and a separator peels off that word. */
  lemma {:induction false} SplitWord(word: string, rest: string, sep: char)
    requires Free(word, sep)
    ensures Split(word + [sep] + rest, sep) == [word] + Split(rest, sep)
    ensures Split(word, sep) == [word]
  {
    if word == "" {
      assert (word + [sep] + rest)[1..] == rest;
    } else {
      SplitWord(word[1..], rest, sep);
      assert (word + [sep] + rest)[1..] == word[1..] + [sep] + rest;
      assert [word[0]] + word[1..] == word;
    }
  }

  lemma {:induction false} SplitOfJoin(parts: seq<string>, sep: char)
    requires parts != []
    requires forall i :: 0 <= i < |parts| ==> Free(parts[i], sep)
    ensures Split(Join(parts, sep), sep) == parts
  {
    if |parts| == 1 {
      SplitWord(parts[0], "", sep);
    } else {
      SplitWord(parts[0], Join(parts[1..], sep), sep);
      SplitOfJoin(parts[1..], sep);
    }
  }

  /** A text is cut at its last separator in one way only. */
  lemma LastSeparator(a: string, b: string, c: string, d: string, sep: char)
    requires Free(b, sep) && Free(d, sep)
    requires a + [sep] + b == c + [sep] + d
    ensures a == c && b == d
  {
    var s := a + [sep] + b;
    assert s[|a|] == sep && s[|c|] == sep;
    assert forall i :: |a| < i < |s| ==> s[i] == b[i - |a| - 1];
    assert forall i :: |c| < i < |s| ==> s[i] == d[i - |c| - 1];
    assert |a| == |c|;
    assert a == s[..|a|] == c;
    assert b == s[|a| + 1..] == d;
  }

  // ------------------------------------------------------------ white space

  predicate IsSpace(c: char) {
    c == ' ' || c == '\t' || c == '\n' || c == '\r' || c as int == 11 || c as int == 12
  }

  function TrimLeft(s: string): (t: string)
    ensures |t| <= |s|
    ensures t == "" || !IsSpace(t[0])
  {
    if s != "" && IsSpace(s[0]) then TrimLeft(s[1..]) else s
  }

  function TrimRight(s: string): (t: string)
    ensures t <= s
    ensures t == "" || !IsSpace(t[|t| - 1])
  {
    if s != "" && IsSpace(s[|s| - 1]) then TrimRight(s[..|s| - 1]) else s
  }

  function TrimSpace(s: string): string {
    TrimRight(TrimLeft(s))
  }

  function FirstWord(s: string): (w: string)
    ensures w <= s
    ensures s != "" && !IsSpace(s[0]) ==> w != ""
    ensures |w| < |s| ==> IsSpace(s[|w|])
    ensures forall i :: 0 <= i < |w| ==> !IsSpace(w[i])
  {
    if s == "" || IsSpace(s[0]) then "" else [s[0]] + FirstWord(s[1..])
  }

  /** The white-space separated words of `s`. */
  function Fields(s: string): (words: seq<string>)
    decreases |s|
  {
    var t := TrimLeft(s);
    if t == "" then [] else [FirstWord(t)] + Fields(t[|FirstWord(t)|..])
  }

  // --------------------------------------------- white space by characters

  /** Blank, tab, line feed, carriage return, vertical tab, form feed. */
  const WHITE_SPACE := [' ', '\t', '\n', '\r', 11 as char, 12 as char]

  predicate Blank(s: string) {
    forall i :: 0 <= i < |s| ==> s[i] in WHITE_SPACE
  }

  /** No white space at either end. */
  predicate Trimmed(s: string) {
    s != "" ==> s[0] !in WHITE_SPACE && s[|s| - 1] !in WHITE_SPACE
  }

  /** A word: not empty, no white space in it. */
  predicate IsWord(s: string) {
    s != "" && forall i :: 0 <= i < |s| ==> s[i] !in WHITE_SPACE
  }

  lemma SpaceIsWhite(c: char)
    ensures IsSpace(c) <==> c in WHITE_SPACE
  {
    assert WHITE_SPACE[4] == 11 as char && WHITE_SPACE[5] == 12 as char;
    assert WHITE_SPACE[0] == ' ' && WHITE_SPACE[1] == '\t' && WHITE_SPACE[2] == '\n' && WHITE_SPACE[3] == '\r';
  }

  /** Trimming the left drops exactly a blank prefix. */
  lemma {:induction false} TrimLeftCuts(s: string) returns (left: string)
    ensures Blank(left) && s == left + TrimLeft(s)
  {
    if s != "" && IsSpace(s[0]) {
      SpaceIsWhite(s[0]);
      left := TrimLeftCuts(s[1..]);
      left := [s[0]] + left;
    } else {
      left := "";
    }
  }

  lemma {:induction false} TrimRightCuts(s: string) returns (right: string)
    ensures Blank(right) && s == TrimRight(s) + right
  {
    if s != "" && IsSpace(s[|s| - 1]) {
      SpaceIsWhite(s[|s| - 1]);
      right := TrimRightCuts(s[..|s| - 1]);
      right := right + [s[|s| - 1]];
    } else {
      right := "";
    }
  }

  lemma {:induction false} TrimLeftOfPadded(left: string, rest: string)
    requires Blank(left)
    ensures TrimLeft(left + rest) == TrimLeft(rest)
  {
    if left == "" {
      assert left + rest == rest;
    } else {
      SpaceIsWhite(left[0]);
      TrimLeftOfPadded(left[1..], rest);
      assert (left + rest)[1..] == left[1..] + rest;
    }
  }

  lemma {:induction false} TrimRightOfPadded(rest: string, right: string)
    requires Blank(right)
    ensures TrimRight(rest + right) == TrimRight(rest)
  {
    if right == "" {
      assert rest + right == rest;
    } else {
      SpaceIsWhite(right[|right| - 1]);
      TrimRightOfPadded(rest, right[..|right| - 1]);
      assert (rest + right)[..|rest + right| - 1] == rest + right[..|right| - 1];
    }
  }

  lemma TrimPadded(left: string, s: string, right: string)
    requires Blank(left) && Blank(right) && Trimmed(s)
    ensures TrimSpace(left + s + right) == s
  {
    assert left + s + right == left + (s + right);
    TrimLeftOfPadded(left, s + right);
    if s == "" {
      assert s + right == right == right + "";
      TrimLeftOfPadded(right, "");
    } else {
      SpaceIsWhite(s[0]);
      SpaceIsWhite(s[|s| - 1]);
      TrimRightOfPadded(s, right);
    }
  }

  /** Trimming yields the one text without white space at its ends that differs by white space around it. */
  lemma TrimMeans(s: string, t: string)
    ensures TrimSpace(s) == t <==>
      Trimmed(t) && exists left: string, right: string :: Blank(left) && Blank(right) && s == left + t + right
  {
    if TrimSpace(s) == t {
      var left := TrimLeftCuts(s);
      var right := TrimRightCuts(TrimLeft(s));
      assert s == left + t + right;
      if t != "" {
        SpaceIsWhite(t[0]);
        SpaceIsWhite(t[|t| - 1]);
      }
    } else if Trimmed(t) {
      forall left: string, right: string | Blank(left) && Blank(right)
        ensures s != left + t + right
      {
        TrimPadded(left, t, right);
      }
    }
  }
}
