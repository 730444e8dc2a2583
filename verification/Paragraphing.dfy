/** The paragraphs of a text: what stands between blank lines, stripped. */
module Paragraphing {
  import opened Text

  /** How far the white space reaches at the front of a text. */
  function SpaceRun(s: string): (n: nat)
    ensures n <= |s| && Blank(s[..n])
  {
    if s == [] || !IsSpace(s[0]) then 0
    else
      var n := SpaceRun(s[1..]);
      assert s[..n + 1] == [s[0]] + s[1..][..n];
      n + 1
  }

  /** The length of a text up to its last newline, that included. */
  function UpToLastNewline(s: string): (n: nat)
    ensures n <= |s| && (n > 0 ==> s[n - 1] == '\n')
  {
    if s == [] then 0
    else if s[|s| - 1] == '\n' then |s|
    else UpToLastNewline(s[..|s| - 1])
  }

  /** The blank line at the front of a text: a newline, white space, and a newline as far on as
      that white space allows. */
  function BlankLine(s: string): (n: nat)
    ensures n <= |s| && Blank(s[..n])
  {
    if s == [] || s[0] != '\n' then 0
    else
      var n := UpToLastNewline(s[1..][..SpaceRun(s[1..])]);
      if n == 0 then 0
      else
        SpaceAhead(s, SpaceRun(s[1..]), n);
        n + 1
  }

  lemma SpaceAhead(s: string, run: nat, n: nat)
    requires s != [] && IsSpace(s[0]) && n <= run < |s| && Blank(s[1..][..run])
    ensures Blank(s[..n + 1])
  {
    forall i | 0 <= i < n + 1
      ensures IsSpace(s[i])
    {
      if i > 0 {
        assert s[1..][..run][i - 1] == s[i];
        assert s[i] in s[1..][..run];
      }
    }
  }

  /** The text between blank lines. */
  function SplitAtBlankLines(s: string, current: string): seq<string> {
    if s == [] then [current]
    else if BlankLine(s) > 0 then [current] + SplitAtBlankLines(s[BlankLine(s)..], [])
    else SplitAtBlankLines(s[1..], current + [s[0]])
  }

  function StrippedOf(parts: seq<string>): (paragraphs: seq<string>)
    ensures forall i :: 0 <= i < |paragraphs| ==> paragraphs[i] != []
  {
    if parts == [] then []
    else (if Strip(parts[0]) != [] then [Strip(parts[0])] else []) + StrippedOf(parts[1..])
  }

  function Paragraphs(text: string): (paragraphs: seq<string>)
    ensures forall i :: 0 <= i < |paragraphs| ==> paragraphs[i] != []
  {
    StrippedOf(SplitAtBlankLines(text, []))
  }

  // --- what a paragraph is, by positions alone ---------------------------------------------

  /** Two newlines with nothing other than white space between them. */
  predicate BlankBetween(s: string, i: nat, j: nat) {
    i < j < |s| && s[i] == '\n' && s[j] == '\n' && forall k :: i < k < j ==> IsSpace(s[k])
  }

  ghost predicate HasBlankLine(s: string) {
    exists i: nat, j: nat :: BlankBetween(s, i, j)
  }

  lemma {:induction false} SpaceRunExactly(s: string, k: nat)
    requires k <= |s| && forall i :: 0 <= i < k ==> IsSpace(s[i])
    ensures k <= SpaceRun(s)
    ensures forall i :: 0 <= i < SpaceRun(s) ==> IsSpace(s[i])
    ensures SpaceRun(s) < |s| ==> !IsSpace(s[SpaceRun(s)])
  {
    if s != [] && IsSpace(s[0]) {
      SpaceRunExactly(s[1..], if k > 0 then k - 1 else 0);
    }
  }

  lemma {:induction false} LastNewlineExactly(s: string)
    ensures forall i :: UpToLastNewline(s) <= i < |s| ==> s[i] != '\n'
  {
    if s != [] && s[|s| - 1] != '\n' {
      LastNewlineExactly(s[..|s| - 1]);
    }
  }

  /** A blank line begins where a newline is followed by another one over white space; it reaches to
      the last newline that white space leads to. */
  lemma BlankLineExactly(s: string)
    ensures BlankLine(s) > 0 <==> exists j: nat :: BlankBetween(s, 0, j)
    ensures BlankLine(s) > 0 ==> BlankBetween(s, 0, BlankLine(s) - 1)
    ensures forall j: nat :: BlankBetween(s, 0, j) ==> j < BlankLine(s)
  {
    if s != [] && s[0] == '\n' {
      var rest := s[1..];
      var run := SpaceRun(rest);
      var n := UpToLastNewline(rest[..run]);
      SpaceRunExactly(rest, 0);
      LastNewlineExactly(rest[..run]);
      forall j: nat | BlankBetween(s, 0, j)
        ensures j <= n && n > 0
      {
        forall i | 0 <= i < j
          ensures IsSpace(rest[i])
        {
          assert rest[i] == s[i + 1];
        }
        SpaceRunExactly(rest, j);
        assert rest[..run][j - 1] == s[j] == '\n';
      }
      if n > 0 {
        assert rest[..run][n - 1] == s[n];
        forall k | 0 < k < n
          ensures IsSpace(s[k])
        {
          assert s[k] == rest[k - 1];
        }
        assert BlankBetween(s, 0, n);
      }
    }
  }

  /** No blank line begins in `current`, as long as it is followed by `s`. */
  ghost predicate ClearBefore(current: string, s: string) {
    forall i: nat, j: nat :: i < |current| ==> !BlankBetween(current + s, i, j)
  }

  lemma BlankBehind(front: string, s: string, i: nat, j: nat)
    ensures BlankBetween(front + s, |front| + i, |front| + j) <==> BlankBetween(s, i, j)
  {
    var whole := front + s;
    assert forall k :: 0 <= k < |s| ==> s[k] == whole[|front| + k];
    if BlankBetween(whole, |front| + i, |front| + j) {
      forall k | i < k < j
        ensures IsSpace(s[k])
      {
        assert whole[|front| + k] == s[k];
      }
    }
  }

  lemma BlankInFront(s: string, more: string)
    ensures forall i: nat, j: nat :: j < |s| ==> (BlankBetween(s + more, i, j) <==> BlankBetween(s, i, j))
  {
    assert forall k :: 0 <= k < |s| ==> s[k] == (s + more)[k];
  }

  lemma {:induction false} PartsAreClear(s: string, current: string)
    requires ClearBefore(current, s)
    ensures forall p :: p in SplitAtBlankLines(s, current) ==> !HasBlankLine(p)
    decreases |s|
  {
    hide BlankLine;
    BlankLineExactly(s);
    if s == [] {
      assert current + s == current;
    } else if BlankLine(s) > 0 {
      PartsAreClear(s[BlankLine(s)..], []);
      BlankInFront(current, s);
    } else {
      var more := current + [s[0]];
      assert more + s[1..] == current + s;
      forall i: nat, j: nat | i < |more|
        ensures !BlankBetween(more + s[1..], i, j)
      {
        if i == |current| && j >= i {
          BlankBehind(current, s, 0, j - i);
          assert !BlankBetween(s, 0, j - i);
        }
      }
      PartsAreClear(s[1..], more);
    }
  }

  lemma StaysInside(s: string, i: nat, j: nat)
    ensures BlankBetween(s, i, j) ==> j < |s|
  {
  }

  lemma StrippedStaysClear(s: string)
    requires !HasBlankLine(s)
    ensures !HasBlankLine(Strip(s))
  {
    hide StripLeft, StripRight, BlankBetween;
    var left := StripLeft(s);
    var head, text := s[..|s| - |left|], StripRight(left);
    assert s == head + left && left == text + left[|text|..];
    forall i: nat, j: nat
      ensures !BlankBetween(text, i, j)
    {
      BlankBehind(head, left, i, j);
      assert !BlankBetween(s, |head| + i, |head| + j);
      BlankInFront(text, left[|text|..]);
      StaysInside(text, i, j);
    }
  }

  lemma {:induction false} StrippedParts(parts: seq<string>)
    requires forall p :: p in parts ==> !HasBlankLine(p)
    ensures forall p :: p in StrippedOf(parts) ==> !HasBlankLine(p) && Strip(p) == p
  {
    hide Strip, HasBlankLine;
    if parts != [] {
      assert parts[0] in parts && forall p :: p in parts[1..] ==> p in parts;
      StrippedParts(parts[1..]);
      StrippedStaysClear(parts[0]);
      StripTwice(parts[0]);
    }
  }

  lemma StripTwice(s: string)
    ensures Strip(Strip(s)) == Strip(s)
  {
    var left := StripLeft(s);
    var text := StripRight(left);
    if text != [] {
      assert text[0] == left[0];
    }
  }

  /** A paragraph is stripped, holds something, and holds no two newlines with only white space
      between. */
  lemma ParagraphsAreClear(text: string)
    ensures forall p :: p in Paragraphs(text) ==> p != [] && Strip(p) == p && !HasBlankLine(p)
  {
    hide StrippedOf, SplitAtBlankLines, Strip, HasBlankLine;
    PartsAreClear(text, []);
    StrippedParts(SplitAtBlankLines(text, []));
  }

  lemma {:induction false} NothingToSplit(s: string, current: string)
    requires !HasBlankLine(s)
    ensures SplitAtBlankLines(s, current) == [current + s]
    decreases |s|
  {
    hide BlankLine;
    BlankLineExactly(s);
    if s == [] {
      assert current + s == current;
    } else {
      assert s == [s[0]] + s[1..];
      forall i: nat, j: nat
        ensures !BlankBetween(s[1..], i, j)
      {
        BlankBehind([s[0]], s[1..], i, j);
      }
      NothingToSplit(s[1..], current + [s[0]]);
      assert current + [s[0]] + s[1..] == current + s;
    }
  }

  /** A text without a blank line is at most one paragraph: itself, stripped. */
  lemma OneParagraph(text: string)
    requires !HasBlankLine(text)
    ensures Paragraphs(text) == if Strip(text) == [] then [] else [Strip(text)]
  {
    hide Strip, HasBlankLine;
    NothingToSplit(text, []);
    assert [] + text == text;
    assert StrippedOf([]) == [];
  }

  // --- a blank line separates, wherever it stands ------------------------------------------

  /** The paragraphs when `current` has been read already. */
  function ParagraphsFrom(s: string, current: string): seq<string> {
    StrippedOf(SplitAtBlankLines(s, current))
  }

  lemma OneMoreSpace(s: string, c: char)
    requires IsSpace(c)
    ensures Strip([c] + s) == Strip(s) && Strip(s + [c]) == Strip(s)
  {
    hide StripLeft, StripRight;
    StripsFromTheLeft(s, c);
    SpaceInFront(s, c);
    if StripLeft(s) == [] {
      NothingStripped();
    } else {
      SpaceBehind(StripLeft(s), c);
    }
  }

  lemma NothingStripped()
    ensures StripRight([]) == []
  {
  }

  lemma SpaceInFront(s: string, c: char)
    requires IsSpace(c)
    ensures StripLeft([c] + s) == StripLeft(s)
  {
    assert ([c] + s)[1..] == s;
  }

  lemma SpaceBehind(s: string, c: char)
    requires IsSpace(c)
    ensures StripRight(s + [c]) == StripRight(s)
  {
    assert (s + [c])[..|s|] == s;
  }

  lemma StrippedFirst(first: string, rest: seq<string>)
    ensures StrippedOf([first] + rest) == (if Strip(first) != [] then [Strip(first)] else []) + StrippedOf(rest)
  {
    hide Strip;
    assert ([first] + rest)[0] == first && ([first] + rest)[1..] == rest;
  }

  lemma {:induction false} StripsFromTheLeft(s: string, c: char)
    requires IsSpace(c)
    ensures StripLeft(s + [c]) == if StripLeft(s) == [] then [] else StripLeft(s) + [c]
  {
    if s == [] {
      assert s + [c] == [c] && [c][1..] == [];
    } else if IsSpace(s[0]) {
      assert (s + [c])[1..] == s[1..] + [c];
      StripsFromTheLeft(s[1..], c);
    } else {
      assert (s + [c])[0] == s[0];
    }
  }

  /** White space that was read already is as good as nothing. */
  lemma {:induction false} SpaceReadBefore(s: string, current: string, c: char)
    requires IsSpace(c)
    ensures ParagraphsFrom(s, [c] + current) == ParagraphsFrom(s, current)
    decreases |s|
  {
    hide BlankLine, Strip;
    OneMoreSpace(current, c);
    if s == [] {
      StrippedFirst(current, []);
      StrippedFirst([c] + current, []);
      assert [current] + [] == [current] && [[c] + current] + [] == [[c] + current];
    } else if BlankLine(s) == 0 {
      assert [c] + current + [s[0]] == [c] + (current + [s[0]]);
      SpaceReadBefore(s[1..], current + [s[0]], c);
    } else {
      var rest := SplitAtBlankLines(s[BlankLine(s)..], []);
      StrippedFirst(current, rest);
      StrippedFirst([c] + current, rest);
    }
  }

  lemma BlankStart(s: string)
    requires s != [] && IsSpace(s[0])
    ensures BlankLine(s) == 0 ==> ParagraphsFrom(s, []) == ParagraphsFrom(s[1..], [])
    ensures BlankLine(s) > 0 ==> ParagraphsFrom(s, []) == ParagraphsFrom(s[BlankLine(s)..], [])
  {
    hide BlankLine, Strip;
    if BlankLine(s) == 0 {
      assert [] + [s[0]] == [s[0]] + [];
      SpaceReadBefore(s[1..], [], s[0]);
    } else {
      StripOfBlank([]);
    }
  }

  /** White space in front of a text makes no difference. */
  lemma {:induction false} BlankPrefix(s: string, k: nat)
    requires k <= |s| && forall i :: 0 <= i < k ==> IsSpace(s[i])
    ensures ParagraphsFrom(s, []) == ParagraphsFrom(s[k..], [])
    decreases |s|
  {
    hide ParagraphsFrom, BlankLine;
    if k == 0 {
      assert s[0..] == s;
    } else {
      BlankStart(s);
      var n := BlankLine(s);
      if n == 0 {
        BlankPrefix(s[1..], k - 1);
        assert s[1..][k - 1..] == s[k..];
      } else if n <= k {
        BlankPrefix(s[n..], k - n);
        assert s[n..][k - n..] == s[k..];
      } else {
        BlankLineExactly(s);
        BlankPrefix(s[k..], n - k);
        assert s[k..][n - k..] == s[n..];
      }
    }
  }

  /** Nothing but white space ahead ends the paragraph at hand. */
  lemma {:induction false} OnlyBlankAhead(s: string, current: string)
    requires forall i :: 0 <= i < |s| ==> IsSpace(s[i])
    ensures ParagraphsFrom(s, current) == StrippedOf([current])
    decreases |s|
  {
    hide BlankLine, Strip;
    if s != [] {
      OneMoreSpace(current, s[0]);
      if BlankLine(s) == 0 {
        OnlyBlankAhead(s[1..], current + [s[0]]);
        assert StrippedOf([current + [s[0]]]) == StrippedOf([current]);
      } else {
        OnlyBlankAhead(s[BlankLine(s)..], []);
        StripOfBlank([]);
        assert StrippedOf([[]]) == [];
      }
    }
  }

  lemma BlankLineAhead(s: string, current: string)
    requires s != [] && BlankLine(s) > 0
    ensures ParagraphsFrom(s, current) == StrippedOf([current]) + ParagraphsFrom(s[BlankLine(s)..], [])
  {
    hide BlankLine, Strip;
    var rest := SplitAtBlankLines(s[BlankLine(s)..], []);
    assert ([current] + rest)[0] == current && ([current] + rest)[1..] == rest;
    assert StrippedOf([]) == [] && [current][1..] == [];
  }

  function Gap(w: string, b: string): string {
    "\n" + w + "\n" + b
  }

  /** The gap comes after a blank line that stands at the front. */
  lemma DivideAfterLine(a: string, w: string, b: string, current: string)
    requires BlankLine(a) > 0
    requires var rest := a[BlankLine(a)..];
             ParagraphsFrom(rest + Gap(w, b), []) == ParagraphsFrom(rest, []) + ParagraphsFrom(b, [])
    ensures ParagraphsFrom(a + Gap(w, b), current) == ParagraphsFrom(a, current) + ParagraphsFrom(b, [])
  {
    hide ParagraphsFrom, BlankLine, Gap, StrippedOf;
    var s := a + Gap(w, b);
    FrontOfBoth(a, Gap(w, b));
    var n, m := BlankLine(s), BlankLine(a);
    assert s[m..] == a[m..] + Gap(w, b);
    BlankLineAhead(s, current);
    BlankLineAhead(a, current);
    BlankLineExactly(s);
    BlankPrefix(s[m..], n - m);
    assert s[m..][n - m..] == s[n..];
  }

  /** The gap completes the blank line at the front. */
  lemma DivideAtGap(a: string, w: string, b: string, current: string)
    requires forall i :: 0 <= i < |w| ==> IsSpace(w[i])
    requires BlankLine(a) == 0 && BlankLine(a + Gap(w, b)) > 0
    ensures ParagraphsFrom(a + Gap(w, b), current) == ParagraphsFrom(a, current) + ParagraphsFrom(b, [])
  {
    hide ParagraphsFrom, BlankLine, StrippedOf;
    var s := a + Gap(w, b);
    GapIsAhead(a, w, b);
    BlankLineAhead(s, current);
    OnlyBlankAhead(a, current);
    BlankPrefix(s, BlankLine(s));
    BlankPrefix(s, |a| + |w| + 2);
    assert s[|a| + |w| + 2..] == b;
  }

  /** A blank line divides the paragraphs of the text, wherever it stands. */
  lemma {:induction false} BlankLinesDivide(a: string, w: string, b: string, current: string)
    requires forall i :: 0 <= i < |w| ==> IsSpace(w[i])
    ensures ParagraphsFrom(a + Gap(w, b), current) == ParagraphsFrom(a, current) + ParagraphsFrom(b, [])
    decreases |a|
  {
    hide ParagraphsFrom, BlankLine, Gap;
    var s := a + Gap(w, b);
    if BlankLine(a) > 0 {
      BlankLinesDivide(a[BlankLine(a)..], w, b, []);
      DivideAfterLine(a, w, b, current);
    } else if BlankLine(s) > 0 {
      DivideAtGap(a, w, b, current);
    } else {
      GapIsABlankLine(w, b);
      if a != [] {
        assert s[1..] == a[1..] + Gap(w, b) && s[0] == a[0];
        BlankLinesDivide(a[1..], w, b, current + [a[0]]);
        StepOver(s, current);
        StepOver(a, current);
      }
    }
  }

  lemma StepOver(s: string, current: string)
    requires s != [] && BlankLine(s) == 0
    ensures ParagraphsFrom(s, current) == ParagraphsFrom(s[1..], current + [s[0]])
  {
    hide BlankLine, Strip;
  }

  lemma GapIsABlankLine(w: string, b: string)
    requires forall i :: 0 <= i < |w| ==> IsSpace(w[i])
    ensures BlankLine([] + Gap(w, b)) > 0
  {
    hide BlankLine;
    var s := [] + Gap(w, b);
    assert forall k :: 0 < k < |w| + 1 ==> s[k] == w[k - 1];
    assert BlankBetween(s, 0, |w| + 1);
    BlankLineExactly(s);
  }

  /** A blank line at the front of a text is one at the front of every longer text. */
  lemma FrontOfBoth(a: string, more: string)
    ensures BlankLine(a) <= BlankLine(a + more)
  {
    hide BlankLine;
    BlankLineExactly(a);
    BlankLineExactly(a + more);
    if BlankLine(a) > 0 {
      assert BlankBetween(a + more, 0, BlankLine(a) - 1);
    }
  }

  /** If only the gap completes a blank line, all before it is white space. */
  lemma GapIsAhead(a: string, w: string, b: string)
    requires forall i :: 0 <= i < |w| ==> IsSpace(w[i])
    requires BlankLine(a) == 0 && BlankLine(a + Gap(w, b)) > 0
    ensures forall i :: 0 <= i < |a| ==> IsSpace(a[i])
    ensures var s := a + Gap(w, b);
            forall i :: 0 <= i < |a| + |w| + 2 ==> IsSpace(s[i])
    ensures var s := a + Gap(w, b);
            forall i :: 0 <= i < BlankLine(s) ==> IsSpace(s[i])
  {
    hide BlankLine;
    var s := a + Gap(w, b);
    BlankLineExactly(a);
    BlankLineExactly(s);
    BlankInFront(a, Gap(w, b));
    var j := BlankLine(s) - 1;
    assert BlankBetween(s, 0, j);
    forall i | 0 <= i < |a| + |w| + 2
      ensures IsSpace(s[i])
    {
      assert i > |a| && i < |a| + |w| + 1 ==> s[i] == w[i - |a| - 1];
      assert i == |a| || i == |a| + |w| + 1 ==> s[i] == '\n';
    }
    assert forall i :: 0 <= i < |a| ==> a[i] == s[i];
  }

  /** The paragraphs of two texts with a blank line between are those of the one, then those of the
      other. */
  lemma ParagraphsDivide(a: string, w: string, b: string)
    requires Blank(w)
    ensures Paragraphs(a + "\n" + w + "\n" + b) == Paragraphs(a) + Paragraphs(b)
  {
    assert forall i :: 0 <= i < |w| ==> w[i] in w;
    assert a + "\n" + w + "\n" + b == a + Gap(w, b);
    BlankLinesDivide(a, w, b, []);
  }
}
