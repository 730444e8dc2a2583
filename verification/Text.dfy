/** Text as the code reads it: white space, stripping, words, lines, decimal numbers. */
module Text {

  // --- white space ---------------------------------------------------------

  /** Characters at which text is broken into lines. */
  predicate IsLineBreak(c: char) {
    '\n' <= c <= '\r' || '\U{1c}' <= c <= '\U{1e}' || c == '\U{85}' || c == '\U{2028}' || c == '\U{2029}'
  }

  predicate IsSpace(c: char) {
    IsLineBreak(c) || c == '\t' || c == '\U{1f}' || c == ' ' || c == '\U{a0}' || c == '\U{1680}'
    || '\U{2000}' <= c <= '\U{200a}' || c == '\U{202f}' || c == '\U{205f}' || c == '\U{3000}'
  }

  /** The text is empty once stripped. */
  predicate Blank(s: string) {
    forall c :: c in s ==> IsSpace(c)
  }

  lemma NotBlank(s: string)
    requires |s| > 0 && !IsSpace(s[0])
    ensures !Blank(s)
  {
    assert s[0] in s;
  }

  /** No character of the text ends a line. */
  predicate SingleLine(s: string) {
    forall c :: c in s ==> !IsLineBreak(c)
  }

  function StripLeft(s: string): (r: string)
    ensures r == [] || !IsSpace(r[0])
    ensures |r| <= |s| && r == s[|s| - |r|..]
    ensures Blank(s[..|s| - |r|])
  {
    if s == [] || !IsSpace(s[0]) then s else StripLeft(s[1..])
  }

  function StripRight(s: string): (r: string)
    ensures r == [] || !IsSpace(r[|r| - 1])
    ensures |r| <= |s| && r == s[..|r|]
    ensures Blank(s[|r|..])
  {
    if s == [] || !IsSpace(s[|s| - 1]) then s else StripRight(s[..|s| - 1])
  }

  function Strip(s: string): string {
    StripRight(StripLeft(s))
  }

  lemma {:induction false} StripOfBlank(s: string)
    requires Blank(s)
    ensures Strip(s) == []
  {
    if s != [] {
      assert s[0] in s;
      StripOfBlank(s[1..]);
    }
  }

  /** The part stands somewhere in the text. */
  predicate Contains(text: string, part: string) {
    exists i :: 0 <= i <= |text| && part <= text[i..]
  }

  // --- words ---------------------------------------------------------------

  /** The maximal runs of non-space characters; `current` is the run being read. */
  function WordsFrom(s: string, current: string): (words: seq<string>)
    ensures !Blank(s) || current != [] ==> words != []
  {
    if s == [] then
      if current == [] then [] else [current]
    else if IsSpace(s[0]) then
      (if current == [] then [] else [current]) + WordsFrom(s[1..], [])
    else
      WordsFrom(s[1..], current + [s[0]])
  }

  function Words(s: string): (words: seq<string>) {
    WordsFrom(s, [])
  }

  lemma {:induction false} BlankHasNoWords(s: string, current: string)
    requires Blank(s)
    ensures WordsFrom(s, current) == if current == [] then [] else [current]
  {
    if s != [] {
      assert IsSpace(s[0]);
      BlankHasNoWords(s[1..], []);
    }
  }

  lemma {:induction false} WordsFromDivide(a: string, c: char, b: string, current: string)
    requires IsSpace(c)
    ensures WordsFrom(a + ([c] + b), current) == WordsFrom(a, current) + WordsFrom(b, [])
    decreases |a|
  {
    var s := a + ([c] + b);
    if a == [] {
      assert s == [c] + b && s[1..] == b;
    } else {
      assert s[0] == a[0] && s[1..] == a[1..] + ([c] + b);
      WordsFromDivide(a[1..], c, b, if IsSpace(a[0]) then [] else current + [a[0]]);
    }
  }

  /** White space divides the words of a text, wherever it stands. */
  lemma WordsDivide(a: string, c: char, b: string)
    requires IsSpace(c)
    ensures Words(a + [c] + b) == Words(a) + Words(b)
  {
    assert a + [c] + b == a + ([c] + b);
    WordsFromDivide(a, c, b, []);
  }

  lemma {:induction false} WordsFromOne(s: string, current: string)
    requires forall i :: 0 <= i < |s| ==> !IsSpace(s[i])
    ensures WordsFrom(s, current) == if current + s == [] then [] else [current + s]
  {
    if s == [] {
      assert current + s == current;
    } else {
      WordsFromOne(s[1..], current + [s[0]]);
      assert current + [s[0]] + s[1..] == current + s;
    }
  }

  /** A text without white space is one word, or none if it is empty. */
  lemma OneWord(s: string)
    requires forall i :: 0 <= i < |s| ==> !IsSpace(s[i])
    ensures Words(s) == if s == [] then [] else [s]
  {
    WordsFromOne(s, []);
    assert [] + s == s;
  }

  function Join(words: seq<string>, separator: string): string {
    if |words| == 0 then ""
    else if |words| == 1 then words[0]
    else words[0] + separator + Join(words[1..], separator)
  }

  /** Runs of white space collapsed to single spaces. */
  function Normalized(s: string): string {
    Join(Words(s), " ")
  }

  // --- parts joined by a bar ------------------------------------------------

  /** The bar between the first part and the rest is the first bar of the text. */
  lemma FirstBarDecides(a: string, x: string, b: string, y: string)
    requires '|' !in a && '|' !in b && a + "|" + x == b + "|" + y
    ensures a == b && x == y
  {
    var s, t := a + "|" + x, b + "|" + y;
    assert s[|a|] == '|' && t[|b|] == '|';
    assert forall i :: 0 <= i < |a| ==> s[i] == a[i] && a[i] in a;
    assert forall i :: 0 <= i < |b| ==> t[i] == b[i] && b[i] in b;
    assert |a| == |b|;
    assert s[..|a|] == a && t[..|a|] == b;
    assert s[|a| + 1..] == x && t[|a| + 1..] == y;
  }

  lemma {:induction false} SplitAtBar(s: string) returns (first: string, rest: string)
    requires '|' in s
    ensures s == first + "|" + rest && '|' !in first
  {
    if s[0] == '|' {
      first, rest := "", s[1..];
    } else {
      assert s == [s[0]] + s[1..];
      first, rest := SplitAtBar(s[1..]);
      first := [s[0]] + first;
    }
  }

  // --- lines ---------------------------------------------------------------

  /** The lines of a text without their terminators; a pair \r\n is one terminator and a
      terminator at the very end opens no further line. */
  function LinesFrom(s: string, current: string): seq<string> {
    if s == [] then
      if current == [] then [] else [current]
    else if IsLineBreak(s[0]) then
      var rest := if s[0] == '\r' && |s| > 1 && s[1] == '\n' then s[2..] else s[1..];
      [current] + LinesFrom(rest, [])
    else
      LinesFrom(s[1..], current + [s[0]])
  }

  function SplitLines(s: string): seq<string> {
    LinesFrom(s, [])
  }

  /** A text without line breaks, followed by a newline, is read back as exactly one line. */
  lemma {:induction false} LinesFromBlock(line: string, rest: string, current: string)
    requires SingleLine(line)
    ensures LinesFrom(line + "\n" + rest, current) == [current + line] + LinesFrom(rest, [])
  {
    var s := line + "\n" + rest;
    if line == [] {
      assert s == "\n" + rest;
      assert s[1..] == rest;
      assert current + line == current;
    } else {
      assert s[0] == line[0] && line[0] in line;
      assert s[1..] == line[1..] + "\n" + rest;
      assert current + [line[0]] + line[1..] == current + line;
      LinesFromBlock(line[1..], rest, current + [line[0]]);
    }
  }

  /** A newline ends a line whatever precedes it, so what follows is read on its own. */
  lemma {:induction false} LinesFromPrefix(prefix: string, rest: string, current: string)
    ensures var all := LinesFrom(prefix + "\n" + rest, current);
            var tail := LinesFrom(rest, []);
            |all| >= |tail| && all[|all| - |tail|..] == tail
            && forall line :: line in LinesFrom(prefix, current) ==> line in all
    decreases |prefix|
  {
    var s := prefix + "\n" + rest;
    if prefix == [] {
      assert s[1..] == rest;
      assert LinesFrom(s, current) == [current] + LinesFrom(rest, []);
    } else {
      assert s[0] == prefix[0];
      assert s[1..] == prefix[1..] + "\n" + rest;
      if IsLineBreak(prefix[0]) {
        if prefix[0] == '\r' && |s| > 1 && s[1] == '\n' {
          if |prefix| > 1 {
            assert s[2..] == prefix[2..] + "\n" + rest;
            LinesFromPrefix(prefix[2..], rest, []);
          } else {
            assert s[2..] == rest;
          }
        } else {
          assert |prefix| > 1 ==> s[1] == prefix[1];
          LinesFromPrefix(prefix[1..], rest, []);
        }
      } else {
        LinesFromPrefix(prefix[1..], rest, current + [prefix[0]]);
      }
    }
  }

  // --- decimal numbers -----------------------------------------------------

  predicate IsDigit(c: char) {
    '0' <= c <= '9'
  }

  predicate AllDigits(s: string) {
    forall i :: 0 <= i < |s| ==> IsDigit(s[i])
  }

  function DigitOf(n: nat): (c: char)
    requires n < 10
    ensures IsDigit(c) && c as int - '0' as int == n
  {
    ('0' as int + n) as char
  }

  /** The decimal spelling without leading zeros. */
  function Digits(n: nat): (s: string)
    ensures |s| > 0 && AllDigits(s)
    ensures n > 0 ==> s[0] != '0'
    ensures n < 10 <==> |s| == 1
  {
    if n < 10 then [DigitOf(n)] else Digits(n / 10) + [DigitOf(n % 10)]
  }

  function Value(s: string): nat
    requires AllDigits(s)
  {
    if s == [] then 0
    else Value(s[..|s| - 1]) * 10 + (s[|s| - 1] as int - '0' as int)
  }

  lemma {:induction false} ValueOfDigits(n: nat)
    ensures Value(Digits(n)) == n
  {
    var s := Digits(n);
    if n >= 10 {
      assert s[..|s| - 1] == Digits(n / 10);
      ValueOfDigits(n / 10);
    } else {
      assert s[..0] == [];
    }
  }

  lemma {:induction false} PositiveValue(s: string)
    requires AllDigits(s) && |s| > 0 && s[0] != '0'
    ensures Value(s) > 0
  {
    if |s| > 1 {
      PositiveValue(s[..|s| - 1]);
    }
  }

  /** A spelling without leading zeros is the only spelling of its number. */
  lemma {:induction false} DigitsOfValue(s: string)
    requires AllDigits(s) && |s| > 0 && s[0] != '0'
    ensures Digits(Value(s)) == s
  {
    var init := s[..|s| - 1];
    var last := s[|s| - 1] as int - '0' as int;
    if init == [] {
      assert s == [s[0]];
    } else {
      DigitsOfValue(init);
      PositiveValue(init);
      assert Value(s) / 10 == Value(init) && Value(s) % 10 == last;
      assert s == init + [s[|s| - 1]];
    }
  }

  lemma {:induction false} LeadingZero(s: string)
    requires AllDigits(s)
    ensures Value("0" + s) == Value(s)
  {
    if s == [] {
      assert "0" + s == "0";
      assert Value("0") == Value("0"[..0]) * 10 + 0;
    } else {
      assert ("0" + s)[..|s|] == "0" + s[..|s| - 1];
      LeadingZero(s[..|s| - 1]);
    }
  }
}
