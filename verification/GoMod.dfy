/**
 The `go` directive of a go.mod file (pkg/gomod.go): a line scanner with a bounded buffer and
 the loop that looks for the first directive line.
 */
module GoMod {
  import opened Text
  import opened Versions

  /** A line that fills the scanner's buffer of this many bytes stops the scan with an error. */
  const MAX_LINE: nat := 1024 * 1024

  function LineEnd(s: string): (k: nat)
    ensures k <= |s|
    ensures k < |s| ==> s[k] == '\n'
    ensures Free(s[..k], '\n')
  {
    if s == "" || s[0] == '\n' then 0
    else
      var k := LineEnd(s[1..]);
      assert s[..1 + k] == [s[0]] + s[1..][..k];
      1 + k
  }

  /** The lines of `s`; a final line end does not start another line. */
  function Lines(s: string): seq<string>
    decreases |s|
  {
    if s == "" then []
    else
      var k := LineEnd(s);
      [s[..k]] + if k == |s| then [] else Lines(s[k + 1..])
  }

  function DropCR(line: string): string {
    if line != "" && line[|line| - 1] == '\r' then line[..|line| - 1] else line
  }

  /** The value of the `go` directive on a scanned line, if the line is one. */
  function Directive(text: string): Option<string> {
    var line := TrimSpace(text);
    var words := Fields(line);
    if line == "" || HasPrefix(line, "//") then None
    else if |words| >= 2 && words[0] == "go" then Some(words[1])
    else None
  }

  function Seek(lines: seq<string>): Option<Version> {
    if lines == [] || |lines[0]| >= MAX_LINE then None
    else match Directive(DropCR(lines[0]))
      case Some(value) => ParseGoDirective(value)
      case None => Seek(lines[1..])
  }

  function ScanVersion(content: string): Option<Version> {
    Seek(Lines(content))
  }

  /** `bufio.Scanner` over the file: the unread rest and whether it gave up on a long line. */
  class LineScanner {
    var rest: string
    var tooLong: bool

    constructor (content: string)
      ensures rest == content && !tooLong
    {
      rest, tooLong := content, false;
    }

    method Scan() returns (more: bool, text: string)
      modifies this
      ensures more <==> !old(tooLong) && Lines(old(rest)) != [] && |Lines(old(rest))[0]| < MAX_LINE
      ensures more ==> text == DropCR(Lines(old(rest))[0])
      ensures more ==> Lines(rest) == Lines(old(rest))[1..] && |rest| < |old(rest)| && !tooLong
      ensures !more ==> rest == old(rest)
      ensures !more ==> (tooLong <==> old(tooLong) || Lines(rest) != [])
    {
      more, text := false, "";
      if tooLong || rest == "" {
        return;
      }
      var k := LineEnd(rest);
      if k >= MAX_LINE {
        tooLong := true;
        return;
      }
      more, text := true, DropCR(rest[..k]);
      rest := if k == |rest| then "" else rest[k + 1..];
    }
  }

  /** Line `k` is the first directive line, and no line up to it overflows the scanner. */
  ghost predicate FirstDirectiveAt(lines: seq<string>, k: int) {
    && 0 <= k < |lines|
    && Directive(DropCR(lines[k])).Some?
    && (forall j :: 0 <= j < k ==> Directive(DropCR(lines[j])).None?)
    && (forall j :: 0 <= j <= k ==> |lines[j]| < MAX_LINE)
  }

  lemma FirstDirectiveShift(lines: seq<string>, k: int)
    requires lines != [] && |lines[0]| < MAX_LINE && Directive(DropCR(lines[0])).None?
    ensures FirstDirectiveAt(lines[1..], k) <==> k >= 0 && FirstDirectiveAt(lines, k + 1)
  {
    assert forall j :: 0 <= j < |lines| - 1 ==> lines[1..][j] == lines[j + 1];
    if k >= 0 && FirstDirectiveAt(lines, k + 1) {
      assert FirstDirectiveAt(lines[1..], k);
    }
    if FirstDirectiveAt(lines[1..], k) {
      forall j | 0 <= j < k + 1
        ensures Directive(DropCR(lines[j])).None?
      {
        assert j > 0 ==> lines[j] == lines[1..][j - 1];
      }
      forall j | 0 <= j <= k + 1
        ensures |lines[j]| < MAX_LINE
      {
        assert j > 0 ==> lines[j] == lines[1..][j - 1];
      }
    }
  }

  /** The scan returns the parse of the first directive's value, and nothing without such a line. */
  lemma {:induction false} SeekTakesFirstDirective(lines: seq<string>, v: Version)
    ensures Seek(lines) == Some(v) <==>
      exists k :: FirstDirectiveAt(lines, k) && ParseGoDirective(Directive(DropCR(lines[k])).value) == Some(v)
  {
    if lines != [] && |lines[0]| < MAX_LINE {
      if Directive(DropCR(lines[0])).Some? {
        assert FirstDirectiveAt(lines, 0);
      } else {
        SeekTakesFirstDirective(lines[1..], v);
        forall k {
          FirstDirectiveShift(lines, k);
        }
        if Seek(lines) == Some(v) {
          var k :| FirstDirectiveAt(lines[1..], k)
            && ParseGoDirective(Directive(DropCR(lines[1..][k])).value) == Some(v);
          assert FirstDirectiveAt(lines, k + 1) && lines[k + 1] == lines[1..][k];
        } else {
          forall k | FirstDirectiveAt(lines, k)
            ensures ParseGoDirective(Directive(DropCR(lines[k])).value) != Some(v)
          {
            assert FirstDirectiveAt(lines[1..], k - 1) && lines[k] == lines[1..][k - 1];
          }
        }
      }
    }
  }

  function Unlines(lines: seq<string>): string {
    if lines == [] then "" else lines[0] + "\n" + Unlines(lines[1..])
  }

  lemma {:induction false} LineEndOfLine(line: string, rest: string)
    requires IsLine(line)
    ensures LineEnd(line + "\n" + rest) == |line|
  {
    if line != "" {
      assert line[0] in line;
      LineEndOfLine(line[1..], rest);
      assert (line + "\n" + rest)[1..] == line[1..] + "\n" + rest;
    }
  }

  lemma LinesOfLine(line: string, rest: string)
    requires IsLine(line)
    ensures Lines(line + "\n" + rest) == [line] + Lines(rest)
  {
    var s := line + "\n" + rest;
    LineEndOfLine(line, rest);
    assert s[..|line|] == line && s[|line| + 1..] == rest;
  }

  // ------------------------------------------- directives by characters

  lemma {:induction false} FirstWordOf(word: string, rest: string)
    requires forall i :: 0 <= i < |word| ==> word[i] !in WHITE_SPACE
    requires rest == "" || rest[0] in WHITE_SPACE
    ensures FirstWord(word + rest) == word
  {
    hide IsSpace;
    if word == "" {
      assert word + rest == rest;
      if rest != "" {
        SpaceIsWhite(rest[0]);
      }
    } else {
      SpaceIsWhite(word[0]);
      FirstWordOf(word[1..], rest);
      assert (word + rest)[1..] == word[1..] + rest;
      assert [word[0]] + word[1..] == word;
    }
  }

  /** `text` is white space, then `go`, more white space, the word `w`, and nothing or white space and anything after it. */
  ghost predicate DeclaresBy(text: string, w: string, left: string, gap: string, tail: string) {
    && Blank(left) && Blank(gap) && gap != "" && IsWord(w) && (tail != "" ==> tail[0] in WHITE_SPACE)
    && text == left + "go" + gap + w + tail
  }

  ghost predicate Declares(text: string, w: string) {
    exists left: string, gap: string, tail: string :: DeclaresBy(text, w, left, gap, tail)
  }

  /** Trimming the right of a text that goes on after a word touches only what goes on. */
  lemma {:induction false} TrimRightKeeps(a: string, tail: string)
    requires a != "" && a[|a| - 1] !in WHITE_SPACE
    ensures TrimRight(a + tail) == a + TrimRight(tail)
  {
    if tail == "" {
      assert a + tail == a == a + TrimRight(tail);
      SpaceIsWhite(a[|a| - 1]);
    } else {
      TrimRightKeeps(a, tail[..|tail| - 1]);
      assert (a + tail)[..|a + tail| - 1] == a + tail[..|tail| - 1];
    }
  }

  lemma FieldsStep(word: string, rest: string)
    requires IsWord(word) && (rest != "" ==> rest[0] in WHITE_SPACE)
    ensures Fields(word + rest) == [word] + Fields(rest)
  {
    var s := word + rest;
    SpaceIsWhite(s[0]);
    FirstWordOf(word, rest);
    assert TrimLeft(s) == s && s[|word|..] == rest;
  }

  lemma FieldsPadded(gap: string, rest: string)
    requires Blank(gap)
    ensures Fields(gap + rest) == Fields(rest)
  {
    TrimLeftOfPadded(gap, rest);
  }

  lemma DeclaredIsFound(text: string, w: string, left: string, gap: string, tail: string)
    requires DeclaresBy(text, w, left, gap, tail)
    ensures Directive(text) == Some(w)
  {
    hide Fields, TrimLeft, TrimRight;
    var head := "go" + gap + w;
    var end := TrimRight(tail);
    assert text == left + (head + tail);
    TrimLeftOfPadded(left, head + tail);
    NotSpaceStays(head + tail);
    TrimRightKeeps(head, tail);
    assert TrimSpace(text) == head + end && (head + end)[0] == 'g';
    assert head + end == "go" + (gap + (w + end));
    FieldsStep("go", gap + (w + end));
    FieldsPadded(gap, w + end);
    FieldsStep(w, end);
  }

  lemma NotSpaceStays(s: string)
    requires s != "" && s[0] !in WHITE_SPACE
    ensures TrimLeft(s) == s
  {
    SpaceIsWhite(s[0]);
  }

  lemma FirstField(s: string)
    ensures TrimLeft(s) == "" ==> Fields(s) == []
    ensures TrimLeft(s) != "" ==>
      Fields(s) == [FirstWord(TrimLeft(s))] + Fields(TrimLeft(s)[|FirstWord(TrimLeft(s))|..])
  {}

  lemma FoundIsDeclared(text: string, w: string) returns (left: string, gap: string, tail: string)
    requires Directive(text) == Some(w)
    ensures DeclaresBy(text, w, left, gap, tail)
  {
    hide Fields, TrimSpace, FirstWord, TrimLeft;
    var line := TrimSpace(text);
    TrimMeans(text, line);
    ghost var right;
    left, right :| Blank(left) && Blank(right) && text == left + line + right;
    NotSpaceStays(line);
    FirstField(line);
    var rest := line[2..];
    assert line == "go" + rest;
    FirstField(rest);
    var next := TrimLeft(rest);
    gap := TrimLeftCuts(rest);
    WordOf(next);
    SpaceAfterWord(line, "go", rest);
    var end := next[|w|..];
    assert next == w + end;
    tail := end + right;
    if end != "" {
      SpaceIsWhite(end[0]);
    }
    assert gap != "" by {
      assert gap == "" ==> next == rest;
    }
    hide *;
    PutTogether(left, gap, w, end, right);
  }

  lemma PutTogether(left: string, gap: string, w: string, end: string, right: string)
    ensures left + ("go" + (gap + (w + end))) + right == left + "go" + gap + w + (end + right)
  {}

  lemma WordOf(s: string)
    requires s != "" && !IsSpace(s[0])
    ensures IsWord(FirstWord(s))
  {
    var w := FirstWord(s);
    SpaceIsWhite(s[0]);
    forall i | 0 <= i < |w|
      ensures w[i] !in WHITE_SPACE
    {
      SpaceIsWhite(w[i]);
    }
  }

  lemma SpaceAfterWord(s: string, word: string, rest: string)
    requires FirstWord(s) == word && s == word + rest && TrimLeft(rest) != ""
    ensures rest != "" && IsSpace(rest[0])
  {
    assert rest == "" ==> TrimLeft(rest) == "";
    assert |word| < |s| && s[|word|] == rest[0];
  }

  /** A line is a directive for a word exactly when it has that shape; nothing else is one. */
  lemma DirectiveMeans(text: string, w: string)
    ensures Directive(text) == Some(w) <==> Declares(text, w)
  {
    hide Directive;
    if Directive(text) == Some(w) {
      var left, gap, tail := FoundIsDeclared(text, w);
    }
    if Declares(text, w) {
      var left, gap, tail :| DeclaresBy(text, w, left, gap, tail);
      DeclaredIsFound(text, w, left, gap, tail);
    }
  }

  lemma TrimDropsCR(s: string)
    ensures TrimSpace(s + "\r") == TrimSpace(s)
  {
    var t := TrimSpace(s);
    TrimMeans(s, t);
    hide TrimSpace;
    var left: string, right: string :| Blank(left) && Blank(right) && s == left + t + right;
    SpaceIsWhite('\r');
    assert s + "\r" == left + t + (right + "\r");
    TrimPadded(left, t, right + "\r");
  }

  /** The carriage return the scanner drops is white space to the directive. */
  lemma CarriageReturnIsBlank(line: string)
    ensures Directive(DropCR(line)) == Directive(line)
  {
    hide TrimSpace, Fields;
    if DropCR(line) != line {
      assert line == DropCR(line) + "\r";
      TrimDropsCR(DropCR(line));
    }
  }

  // ------------------------------------------------- files by their lines

  predicate IsLine(line: string) {
    '\n' !in line
  }

  lemma {:induction false} LinesAre(lines: seq<string>, last: string)
    requires forall i :: 0 <= i < |lines| ==> IsLine(lines[i])
    requires IsLine(last)
    ensures Lines(Unlines(lines) + last) == lines + if last == "" then [] else [last]
  {
    hide LineEnd, Lines;
    if lines == [] {
      assert Unlines(lines) + last == last;
      LinesOfLast(last);
    } else {
      LinesAre(lines[1..], last);
      assert Unlines(lines) + last == lines[0] + "\n" + (Unlines(lines[1..]) + last);
      LinesOfLine(lines[0], Unlines(lines[1..]) + last);
    }
  }

  lemma LinesOfLast(last: string)
    requires IsLine(last)
    ensures Lines(last) == if last == "" then [] else [last]
  {
    if last != "" {
      assert forall k :: 0 <= k < |last| ==> last[k] in last;
      assert LineEnd(last) == |last| && last[..|last|] == last;
    }
  }

  /** Line `k` is the first directive line, it declares `w`, and no line up to it fills the scanner's buffer. */
  ghost predicate DeclaredAt(lines: seq<string>, k: int, w: string) {
    && 0 <= k < |lines|
    && Declares(lines[k], w)
    && (forall j, u :: 0 <= j < k ==> !Declares(lines[j], u))
    && (forall j :: 0 <= j <= k ==> |lines[j]| < 1_048_576)
  }

  lemma LineDeclares(line: string, w: string)
    ensures Directive(DropCR(line)) == Some(w) <==> Declares(line, w)
  {
    hide Directive, Declares, DropCR;
    CarriageReturnIsBlank(line);
    DirectiveMeans(line, w);
  }

  lemma LineDeclaresNothing(line: string)
    ensures Directive(DropCR(line)).None? <==> forall w :: !Declares(line, w)
  {
    hide Directive, Declares, DropCR;
    forall w
      ensures Directive(DropCR(line)) == Some(w) <==> Declares(line, w)
    {
      LineDeclares(line, w);
    }
    if Directive(DropCR(line)).Some? {
      assert Declares(line, Directive(DropCR(line)).value);
    }
  }

  lemma DeclaredAtMeans(lines: seq<string>, k: int, w: string)
    ensures DeclaredAt(lines, k, w) <==> FirstDirectiveAt(lines, k) && Directive(DropCR(lines[k])) == Some(w)
  {
    hide Directive, Declares, DropCR;
    if 0 <= k < |lines| {
      LineDeclares(lines[k], w);
      forall j | 0 <= j < k
        ensures Directive(DropCR(lines[j])).None? <==> forall u :: !Declares(lines[j], u)
      {
        LineDeclaresNothing(lines[j]);
      }
    }
  }

  /**
   The scan of a file, by characters: it yields `v` exactly when the first line of directive shape
   spells `v` and no line up to it fills the buffer of 1 MiB. The last line may be unterminated.
   */
  lemma ScanMeans(lines: seq<string>, last: string, v: Version)
    requires forall i :: 0 <= i < |lines| ==> IsLine(lines[i])
    requires IsLine(last)
    ensures var all := lines + if last == "" then [] else [last];
      ScanVersion(Unlines(lines) + last) == Some(v) <==> exists k, w :: DeclaredAt(all, k, w) && Spells("", w, v)
  {
    var all := lines + if last == "" then [] else [last];
    LinesAre(lines, last);
    SeekTakesFirstDirective(all, v);
    hide Directive, Seek, Lines, DeclaredAt, FirstDirectiveAt, Spells, ParseGoDirective;
    if k, w :| DeclaredAt(all, k, w) && Spells("", w, v) {
      DeclaredAtMeans(all, k, w);
      ParseMeansPattern(w, v);
    }
    if k :| FirstDirectiveAt(all, k) && ParseGoDirective(Directive(DropCR(all[k])).value) == Some(v) {
      var w := FoundValue(all, k);
      DeclaredAtMeans(all, k, w);
      ParseMeansPattern(w, v);
    }
  }

  lemma FoundValue(lines: seq<string>, k: int) returns (w: string)
    requires FirstDirectiveAt(lines, k)
    ensures Directive(DropCR(lines[k])) == Some(w)
  {
    w := Directive(DropCR(lines[k])).value;
  }

  lemma NumberIsWord(v: Version)
    requires v.InRange()
    ensures IsWord(v.Number()) && IsLine(v.Number())
  {
    var n := v.Number();
    assert forall i :: 0 <= i < |n| ==> n[i] == '.' || IsDigit(n[i]);
    forall i | 0 <= i < |n|
      ensures n[i] !in WHITE_SPACE && n[i] != '\n'
    {
      SpaceIsWhite(n[i]);
    }
  }

  /**
   A file whose first directive line carries the printed form of a version yields that version,
   whatever white space the line has, whatever lines without directive shape stand before it, and
   whatever follows it.
   */
  lemma DirectiveIsFound(prelude: seq<string>, line: string, v: Version, rest: seq<string>, last: string)
    requires v.InRange() && Declares(line, v.Number())
    requires IsLine(line) && |line| < 1_048_576
    requires forall i :: 0 <= i < |prelude| ==> IsLine(prelude[i]) && |prelude[i]| < 1_048_576
    requires forall i, w :: 0 <= i < |prelude| ==> !Declares(prelude[i], w)
    requires IsLine(last) && forall i :: 0 <= i < |rest| ==> IsLine(rest[i])
    ensures ScanVersion(Unlines(prelude + [line] + rest) + last) == Some(v.(raw := v.Number()))
    ensures ScanVersion(Unlines(prelude) + line) == Some(v.(raw := v.Number()))
  {
    hide Declares, Spells, ScanVersion, Version.Number;
    var u := v.(raw := v.Number());
    var lines := prelude + [line] + rest;
    var all := lines + if last == "" then [] else [last];
    PrintParse(v);
    ParseMeansPattern(v.Number(), u);
    assert lines[|prelude|] == line && forall i :: 0 <= i < |prelude| ==> lines[i] == prelude[i];
    ScanMeans(lines, last, u);
    assert all[|prelude|] == line && forall i :: 0 <= i < |prelude| ==> all[i] == prelude[i];
    assert DeclaredAt(all, |prelude|, v.Number());
    ScanMeans(prelude, line, u);
    NotEmptyDeclares(line, v.Number());
    assert prelude + (if line == "" then [] else [line]) == prelude + [line];
    assert DeclaredAt(prelude + [line], |prelude|, v.Number());
  }

  lemma NotEmptyDeclares(line: string, w: string)
    requires Declares(line, w)
    ensures line != ""
  {}

  method ParseGoModVersion(content: string) returns (r: Option<Version>)
    ensures r == ScanVersion(content)
  {
    var scanner := new LineScanner(content);
    var more, text := scanner.Scan();
    while more
      invariant more ==> !scanner.tooLong
      invariant more ==> |content| > |scanner.rest|
      invariant more ==> ScanVersion(content) ==
                         match Directive(text) case Some(v) => ParseGoDirective(v) case None => Seek(Lines(scanner.rest))
      invariant !more ==> ScanVersion(content) == None
      invariant fresh(scanner)
      decreases |scanner.rest|, more
    {
      var line := TrimSpace(text);
      if line != "" && !HasPrefix(line, "//") {
        var words := Fields(line);
        if |words| >= 2 && words[0] == "go" {
          assert Directive(text) == Some(words[1]);
          return ParseGoDirective(words[1]);
        }
      }
      more, text := scanner.Scan();
    }
    return None;
  }
}
