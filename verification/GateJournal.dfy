/** gates.md as text: what is appended, and how an exchange is looked up again by its lines. */
module GateJournal {
  import opened Text
  import opened RunFiles

  const HEADING := "# The run's gates\n"
  const QUESTION := "Question: "
  const ANSWER := "The operator's answer (verbatim): "

  /** One appended entry. The time stamp of the heading line is left out. */
  function EntryText(r: GateRecord): string {
    Paragraphs("\n## " + r.kind + "\n", QUESTION + r.question, ANSWER + r.answer)
  }

  function Paragraphs(heading: string, question: string, answer: string): string {
    heading + "\n" + question + "\n\n" + answer + "\n"
  }

  function JournalText(journal: seq<GateRecord>): string {
    if journal == [] then HEADING
    else JournalText(journal[..|journal| - 1]) + EntryText(journal[|journal| - 1])
  }

  /** Both lines of the exchange stand in the journal, exactly. */
  predicate HasPair(journal: seq<GateRecord>, question: string, answer: string) {
    var lines := SplitLines(JournalText(journal));
    ANSWER + answer in lines && QUESTION + question in lines
  }

  /** A line between two newlines is found again, whatever stands before and after. */
  lemma LineIsFound(before: string, line: string, after: string)
    requires SingleLine(line)
    ensures line in SplitLines(before + "\n" + line + "\n" + after)
  {
    var rest := line + "\n" + after;
    assert before + "\n" + line + "\n" + after == before + "\n" + rest;
    LinesFromPrefix(before, rest, []);
    LinesFromBlock(line, after, []);
    assert [] + line == line;
    var all, tail := SplitLines(before + "\n" + rest), LinesFrom(rest, []);
    assert all[|all| - |tail|] == tail[0] == line;
  }

  lemma ParagraphsAreFound(text: string, heading: string, q: string, a: string)
    requires SingleLine(q) && SingleLine(a)
    ensures q in SplitLines(text + Paragraphs(heading, q, a))
    ensures a in SplitLines(text + Paragraphs(heading, q, a))
  {
    var entry := text + Paragraphs(heading, q, a);
    assert entry == (text + heading) + "\n" + q + "\n" + ("\n" + a + "\n");
    LineIsFound(text + heading, q, "\n" + a + "\n");
    assert entry == (text + heading + "\n" + q + "\n") + "\n" + a + "\n" + "";
    LineIsFound(text + heading + "\n" + q + "\n", a, "");
  }

  lemma EntryIsFound(text: string, r: GateRecord)
    requires SingleLine(r.question) && SingleLine(r.answer)
    ensures QUESTION + r.question in SplitLines(text + EntryText(r))
    ensures ANSWER + r.answer in SplitLines(text + EntryText(r))
  {
    hide Paragraphs, SplitLines;
    ParagraphsAreFound(text, "\n## " + r.kind + "\n", QUESTION + r.question, ANSWER + r.answer);
  }

  lemma {:induction false} JournalTextGrows(journal: seq<GateRecord>, more: seq<GateRecord>) returns (rest: string)
    ensures JournalText(journal + more) == JournalText(journal) + rest
  {
    hide EntryText;
    if more == [] {
      assert journal + more == journal;
      rest := "";
    } else {
      var last := |more| - 1;
      var front := JournalTextGrows(journal, more[..last]);
      assert (journal + more)[..|journal| + last] == journal + more[..last];
      rest := front + EntryText(more[last]);
    }
  }

  /** A pair of single lines is found wherever in the journal it stands. */
  lemma PairIsFoundAnywhere(before: seq<GateRecord>, r: GateRecord, after: seq<GateRecord>)
    requires SingleLine(r.question) && SingleLine(r.answer)
    ensures HasPair(before + [r] + after, r.question, r.answer)
  {
    hide SplitLines, SingleLine;
    var rest := JournalTextGrows(before + [r], after);
    assert (before + [r])[..|before|] == before;
    var text, heading := JournalText(before), "\n## " + r.kind + "\n";
    var q, a := QUESTION + r.question, ANSWER + r.answer;
    QuotedLinesStaySingle(r);
    var all := JournalText(before + [r] + after);
    assert all == text + (heading + "\n" + q + "\n\n" + a + "\n") + rest;
    assert all == (text + heading) + "\n" + q + "\n" + ("\n" + a + "\n" + rest);
    LineIsFound(text + heading, q, "\n" + a + "\n" + rest);
    assert all == (text + heading + "\n" + q + "\n") + "\n" + a + "\n" + rest;
    LineIsFound(text + heading + "\n" + q + "\n", a, rest);
  }

  lemma QuotedLinesStaySingle(r: GateRecord)
    requires SingleLine(r.question) && SingleLine(r.answer)
    ensures SingleLine(QUESTION + r.question) && SingleLine(ANSWER + r.answer)
  {
  }

  lemma {:induction false} LinesCarryNoBreaks(s: string, current: string, line: string)
    requires SingleLine(current) && line in LinesFrom(s, current)
    ensures SingleLine(line)
    decreases |s|
  {
    if s != [] {
      if IsLineBreak(s[0]) {
        var rest := if s[0] == '\r' && |s| > 1 && s[1] == '\n' then s[2..] else s[1..];
        if line != current {
          LinesCarryNoBreaks(rest, [], line);
        }
      } else {
        LinesCarryNoBreaks(s[1..], current + [s[0]], line);
      }
    }
  }

  /** Writing the missing pair settles the repair for good exactly when neither the question
      nor the answer breaks a line; otherwise every later start appends the pair once more. */
  lemma RepairSettlesExactly(journal: seq<GateRecord>, r: GateRecord)
    ensures HasPair(journal + [r], r.question, r.answer) <==> SingleLine(r.question) && SingleLine(r.answer)
  {
    var text := JournalText(journal + [r]);
    assert (journal + [r])[..|journal|] == journal;
    if SingleLine(r.question) && SingleLine(r.answer) {
      EntryIsFound(JournalText(journal), r);
    }
    if HasPair(journal + [r], r.question, r.answer) {
      LinesCarryNoBreaks(text, [], QUESTION + r.question);
      LinesCarryNoBreaks(text, [], ANSWER + r.answer);
      forall c | c in r.question || c in r.answer
        ensures !IsLineBreak(c)
      {
        assert c in r.question ==> c in QUESTION + r.question;
        assert c in r.answer ==> c in ANSWER + r.answer;
      }
    }
  }
}
