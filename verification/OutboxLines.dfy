/** The spelling of the outbox file: one object a line, in which every character that JSON allows
    to stand unescaped does so, read back by splitting at all line boundaries. */
module OutboxLines {
  import opened Wrappers
  import opened Text
  import opened Outcomes
  import opened Outbox

  // --- strings -----------------------------------------------------------------

  function Hex(n: nat): (c: char)
    requires n < 16
  {
    if n < 10 then ('0' as int + n) as char else ('a' as int + n - 10) as char
  }

  function HexValue(c: char): Option<nat> {
    if '0' <= c <= '9' then Some(c as int - '0' as int)
    else if 'a' <= c <= 'f' then Some(c as int - 'a' as int + 10)
    else None
  }

  /** Quotes, backslashes and the characters below the space are escaped, and nothing else. */
  function Escaped(c: char): (s: string)
    ensures s != []
  {
    if c == '"' then ['\\', '"']
    else if c == '\\' then ['\\', '\\']
    else if c == '\n' then ['\\', 'n']
    else if c == '\r' then ['\\', 'r']
    else if c == '\t' then ['\\', 't']
    else if c == '\U{8}' then ['\\', 'b']
    else if c == '\U{c}' then ['\\', 'f']
    else if c < ' ' then ['\\', 'u', '0', '0', Hex(c as int / 16), Hex(c as int % 16)]
    else [c]
  }

  /** The rest of a quoted string, with its closing quote. */
  function Quoted(s: string): string {
    if s == [] then ['"'] else Escaped(s[0]) + Quoted(s[1..])
  }

  /** One character at the front of a quoted string, and what follows it. */
  function ReadChar(t: string): Option<(char, string)> {
    if t == [] || t[0] < ' ' then None
    else if t[0] != '\\' then Some((t[0], t[1..]))
    else if |t| < 2 then None
    else if t[1] == '"' then Some(('"', t[2..]))
    else if t[1] == '\\' then Some(('\\', t[2..]))
    else if t[1] == 'n' then Some(('\n', t[2..]))
    else if t[1] == 'r' then Some(('\r', t[2..]))
    else if t[1] == 't' then Some(('\t', t[2..]))
    else if t[1] == 'b' then Some(('\U{8}', t[2..]))
    else if t[1] == 'f' then Some(('\U{c}', t[2..]))
    else if t[1] != 'u' || |t| < 6 || t[2] != '0' || t[3] != '0' then None
    else if HexValue(t[4]).None? || HexValue(t[5]).None? then None
    else Some(((16 * HexValue(t[4]).value + HexValue(t[5]).value) as char, t[6..]))
  }

  function ReadQuoted(t: string): Option<(string, string)>
    decreases |t|
  {
    if t != [] && t[0] == '"' then Some(("", t[1..]))
    else
      match ReadChar(t)
      case None => None
      case Some((c, rest)) =>
        match ReadQuoted(rest)
        case None => None
        case Some((s, after)) => Some(([c] + s, after))
  }

  lemma HexRoundTrip(n: nat)
    requires n < 16
    ensures HexValue(Hex(n)) == Some(n)
  {
  }

  lemma CharRoundTrip(c: char, t: string)
    ensures ReadChar(Escaped(c) + t) == Some((c, t))
    ensures (Escaped(c) + t)[0] != '"'
  {
    if c < ' ' {
      HexRoundTrip(c as int / 16);
      HexRoundTrip(c as int % 16);
    }
    var s := Escaped(c) + t;
    assert s[|Escaped(c)|..] == t;
  }

  lemma {:induction false} QuotedRoundTrip(s: string, t: string)
    ensures ReadQuoted(Quoted(s) + t) == Some((s, t))
  {
    hide ReadChar, Escaped;
    if s == [] {
      assert (['"'] + t)[1..] == t;
    } else {
      CharRoundTrip(s[0], Quoted(s[1..]) + t);
      assert Quoted(s) + t == Escaped(s[0]) + (Quoted(s[1..]) + t);
      QuotedRoundTrip(s[1..], t);
      assert [s[0]] + s[1..] == s;
    }
  }

  /** Reading looks no further than the closing quote. */
  lemma {:induction false} QuotedReadsAhead(t: string, more: string)
    requires ReadQuoted(t).Some?
    ensures ReadQuoted(t + more) == Some((ReadQuoted(t).value.0, ReadQuoted(t).value.1 + more))
    decreases |t|
  {
    if t[0] == '"' {
      assert (t + more)[1..] == t[1..] + more;
    } else {
      CharReadsAhead(t, more);
      QuotedReadsAhead(ReadChar(t).value.1, more);
    }
  }

  lemma CharReadsAhead(t: string, more: string)
    requires ReadChar(t).Some?
    ensures ReadChar(t + more) == Some((ReadChar(t).value.0, ReadChar(t).value.1 + more))
  {
    var k := if t[0] != '\\' then 1 else if t[1] == 'u' then 6 else 2;
    assert (t + more)[k..] == t[k..] + more;
  }

  // --- objects -----------------------------------------------------------------

  function Value(v: Option<string>): string {
    match v
    case None => "null"
    case Some(s) => ['"'] + Quoted(s)
  }

  function ReadValue(t: string): Option<(Option<string>, string)> {
    if t != [] && t[0] == '"' then
      match ReadQuoted(t[1..])
      case None => None
      case Some((s, rest)) => Some((Some(s), rest))
    else if "null" <= t then Some((None, t[4..]))
    else None
  }

  lemma ValueRoundTrip(v: Option<string>, t: string)
    ensures ReadValue(Value(v) + t) == Some((v, t))
  {
    hide Quoted, ReadQuoted;
    if v.Some? {
      QuotedRoundTrip(v.value, t);
      assert (Value(v) + t)[1..] == Quoted(v.value) + t;
    } else {
      assert ("null" + t)[4..] == t;
    }
  }

  lemma ValueReadsAhead(t: string, more: string)
    requires ReadValue(t).Some?
    ensures ReadValue(t + more) == Some((ReadValue(t).value.0, ReadValue(t).value.1 + more))
  {
    hide ReadQuoted;
    if t[0] == '"' {
      QuotedReadsAhead(t[1..], more);
      assert (t + more)[1..] == t[1..] + more;
    } else {
      assert (t + more)[4..] == t[4..] + more;
    }
  }

  /** The fields of an object, each behind its label. */
  function Fields(labels: seq<string>, values: seq<Option<string>>): string
    requires |labels| == |values|
  {
    if labels == [] then "}" else labels[0] + Value(values[0]) + Fields(labels[1..], values[1..])
  }

  function ReadFields(labels: seq<string>, t: string): Option<(seq<Option<string>>, string)>
    decreases |labels|
  {
    if labels == [] then
      if t != [] && t[0] == '}' then Some(([], t[1..])) else None
    else if !(labels[0] <= t) then None
    else
      match ReadValue(t[|labels[0]|..])
      case None => None
      case Some((v, rest)) =>
        match ReadFields(labels[1..], rest)
        case None => None
        case Some((vs, after)) => Some(([v] + vs, after))
  }

  lemma {:induction false} FieldsRoundTrip(labels: seq<string>, values: seq<Option<string>>, t: string)
    requires |labels| == |values|
    ensures ReadFields(labels, Fields(labels, values) + t) == Some((values, t))
    decreases |labels|
  {
    hide ReadValue, Value;
    if labels == [] {
      assert ("}" + t)[1..] == t;
    } else {
      var tail := Fields(labels[1..], values[1..]) + t;
      var all := Fields(labels, values) + t;
      assert all == labels[0] + (Value(values[0]) + tail);
      assert labels[0] <= all && all[|labels[0]|..] == Value(values[0]) + tail;
      ValueRoundTrip(values[0], tail);
      FieldsRoundTrip(labels[1..], values[1..], t);
      assert [values[0]] + values[1..] == values;
    }
  }

  lemma {:induction false} FieldsReadAhead(labels: seq<string>, t: string, more: string)
    requires ReadFields(labels, t).Some?
    ensures ReadFields(labels, t + more)
            == Some((ReadFields(labels, t).value.0, ReadFields(labels, t).value.1 + more))
    decreases |labels|
  {
    hide ReadValue;
    if labels == [] {
      assert (t + more)[1..] == t[1..] + more;
    } else {
      var k := |labels[0]|;
      assert labels[0] <= t + more && (t + more)[k..] == t[k..] + more;
      ValueReadsAhead(t[k..], more);
      FieldsReadAhead(labels[1..], ReadValue(t[k..]).value.1, more);
    }
  }

  const LABELS: seq<string> := [
    "{\"agent_phrasing\": ",
    ", \"operator_signal\": ",
    ", \"expansion\": ",
    ", \"operator_reaction\": ",
    ", \"signal_reading\": ",
    ", \"captured_at\": "]

  function ValuesOf(p: Pair): (values: seq<Option<string>>)
    ensures |values| == 6
  {
    [Some(p.agentPhrasing), Some(p.operatorSignal), Some(p.expansion), Some(p.operatorReaction),
     p.signalReading, Some(p.capturedAt)]
  }

  function Spell(p: Pair): string {
    Fields(LABELS, ValuesOf(p))
  }

  /** One line of the file as an exchange pair; only the reading of the signal may be absent. */
  function ReadLine(line: string): Line {
    if Blank(line) then BlankLine
    else
      match ReadFields(LABELS, line)
      case None => Damaged
      case Some((v, rest)) =>
        if rest != [] || |v| != 6 || v[0].None? || v[1].None? || v[2].None? || v[3].None? || v[5].None? then Damaged
        else PairLine(Pair(v[0].value, v[1].value, v[2].value, v[3].value, v[4], v[5].value))
  }

  function Spelled(pairs: seq<Pair>): string {
    if pairs == [] then [] else Spell(pairs[0]) + "\n" + Spelled(pairs[1..])
  }

  function ReadAll(lines: seq<string>): seq<Line> {
    if lines == [] then [] else [ReadLine(lines[0])] + ReadAll(lines[1..])
  }

  /** The outbox file as the next session sees it. */
  function ReadFile(text: string): seq<Line> {
    ReadAll(SplitLines(text))
  }

  // --- when a pair survives the file -----------------------------------------------

  /** Characters that JSON lets stand unescaped and at which the reader ends a line. */
  predicate IsRawSeparator(c: char) {
    c == '\U{85}' || c == '\U{2028}' || c == '\U{2029}'
  }

  predicate Clean(s: string) {
    forall c :: c in s ==> !IsRawSeparator(c)
  }

  predicate CleanValue(v: Option<string>) {
    v.Some? ==> Clean(v.value)
  }

  predicate CleanPair(p: Pair) {
    forall v :: v in ValuesOf(p) ==> CleanValue(v)
  }

  lemma JoinedLines(s: string, t: string)
    ensures SingleLine(s + t) <==> SingleLine(s) && SingleLine(t)
  {
    assert forall c :: c in s + t <==> c in s || c in t;
  }

  lemma EscapedIsOneLine(c: char)
    ensures SingleLine(Escaped(c)) <==> !IsRawSeparator(c)
  {
    if IsRawSeparator(c) {
      assert c in Escaped(c) && IsLineBreak(c);
    }
  }

  lemma {:induction false} QuotedIsOneLine(s: string)
    ensures SingleLine(Quoted(s)) <==> Clean(s)
  {
    hide Escaped, SingleLine;
    if s == [] {
      assert SingleLine(['"']) by {
        NoBreakInSight(['"']);
      }
    } else {
      EscapedIsOneLine(s[0]);
      QuotedIsOneLine(s[1..]);
      JoinedLines(Escaped(s[0]), Quoted(s[1..]));
      assert s == [s[0]] + s[1..];
    }
  }

  lemma NoBreakInSight(s: string)
    requires forall i :: 0 <= i < |s| ==> ' ' <= s[i] <= '~'
    ensures SingleLine(s)
  {
  }

  lemma ValueIsOneLine(v: Option<string>)
    ensures SingleLine(Value(v)) <==> CleanValue(v)
  {
    hide Clean, Quoted, SingleLine;
    if v.Some? {
      QuotedIsOneLine(v.value);
      JoinedLines(['"'], Quoted(v.value));
      NoBreakInSight(['"']);
    } else {
      NoBreakInSight("null");
    }
  }

  lemma {:induction false} FieldsAreOneLine(labels: seq<string>, values: seq<Option<string>>)
    requires |labels| == |values| && forall i :: 0 <= i < |labels| ==> SingleLine(labels[i])
    ensures SingleLine(Fields(labels, values)) <==> forall v :: v in values ==> CleanValue(v)
    decreases |labels|
  {
    hide SingleLine, Value, CleanValue;
    if labels == [] {
      NoBreakInSight("}");
    } else {
      ValueIsOneLine(values[0]);
      FieldsAreOneLine(labels[1..], values[1..]);
      JoinedLines(labels[0] + Value(values[0]), Fields(labels[1..], values[1..]));
      JoinedLines(labels[0], Value(values[0]));
      assert forall v :: v in values <==> v == values[0] || v in values[1..];
    }
  }

  lemma LabelsAreOneLine()
    ensures |LABELS| == 6 && forall i :: 0 <= i < |LABELS| ==> SingleLine(LABELS[i])
  {
    NoBreakInSight(LABELS[0]);
    NoBreakInSight(LABELS[1]);
    NoBreakInSight(LABELS[2]);
    NoBreakInSight(LABELS[3]);
    NoBreakInSight(LABELS[4]);
    NoBreakInSight(LABELS[5]);
  }

  // --- the file as a whole -------------------------------------------------------------

  lemma SpellOpens(p: Pair)
    ensures Spell(p) != [] && Spell(p)[0] == '{'
  {
    hide Value;
    assert LABELS[0][0] == '{';
    assert Fields(LABELS, ValuesOf(p)) ==
           LABELS[0] + (Value(ValuesOf(p)[0]) + Fields(LABELS[1..], ValuesOf(p)[1..]));
  }

  lemma LineRoundTrip(p: Pair)
    ensures ReadLine(Spell(p)) == PairLine(p)
  {
    hide ReadFields, Fields, Blank;
    SpellOpens(p);
    NotBlank(Spell(p));
    FieldsRoundTrip(LABELS, ValuesOf(p), []);
    assert Spell(p) + [] == Spell(p);
  }

  /** A pair that was cut off anywhere does not read as a pair. */
  lemma CutLineIsDamaged(p: Pair, k: nat)
    requires 0 < k < |Spell(p)|
    ensures ReadLine(Spell(p)[..k]) == Damaged
  {
    hide ReadFields, Fields, Blank;
    var head, tail := Spell(p)[..k], Spell(p)[k..];
    SpellOpens(p);
    NotBlank(head);
    assert head + tail == Spell(p) == Spell(p) + [];
    FieldsRoundTrip(LABELS, ValuesOf(p), []);
    if ReadFields(LABELS, head).Some? {
      FieldsReadAhead(LABELS, head, tail);
    }
  }

  /** A line that contains a line break is cut at the first one. */
  lemma {:induction false} CutAtTheFirstBreak(line: string, rest: string, current: string) returns (k: nat)
    requires !SingleLine(line)
    ensures k < |line| && IsLineBreak(line[k])
    ensures var lines := LinesFrom(line + rest, current); lines != [] && lines[0] == current + line[..k]
  {
    assert (line + rest)[0] == line[0];
    if IsLineBreak(line[0]) {
      k := 0;
    } else {
      assert SingleLine(line[1..]) ==> SingleLine(line) by {
        assert line == [line[0]] + line[1..];
      }
      var j := CutAtTheFirstBreak(line[1..], rest, current + [line[0]]);
      k := j + 1;
      assert (line + rest)[1..] == line[1..] + rest;
      assert current + [line[0]] + line[1..][..j] == current + line[..k];
    }
  }

  lemma SpelledFirst(p: Pair, rest: string)
    ensures SplitLines(Spell(p) + "\n" + rest) != []
    ensures CleanPair(p) ==> SplitLines(Spell(p) + "\n" + rest) == [Spell(p)] + SplitLines(rest)
    ensures !CleanPair(p) ==> ReadLine(SplitLines(Spell(p) + "\n" + rest)[0]) == Damaged
  {
    hide Fields, LinesFrom, ReadLine, SingleLine;
    var line := Spell(p);
    LabelsAreOneLine();
    FieldsAreOneLine(LABELS, ValuesOf(p));
    if CleanPair(p) {
      LinesFromBlock(line, rest, []);
      assert [] + line == line;
    } else {
      var k := CutAtTheFirstBreak(line, "\n" + rest, []);
      assert line + ("\n" + rest) == line + "\n" + rest;
      SpellOpens(p);
      assert k > 0;
      CutLineIsDamaged(p, k);
      assert [] + line[..k] == line[..k];
    }
  }

  /** Exactly when does the outbox give back what was put into it: each pair in its place when no
      text holds a raw separator, and a file that refuses every later reading as soon as one does. */
  lemma {:induction false} ReadsBackExactly(pairs: seq<Pair>)
    ensures ReadFile(Spelled(pairs)) == LinesOf(pairs) <==> forall p :: p in pairs ==> CleanPair(p)
    ensures (exists p :: p in pairs && !CleanPair(p)) ==> !Readable(ReadFile(Spelled(pairs)))
  {
    hide Spell, ReadLine, CleanPair, SplitLines;
    if pairs == [] {
      assert SplitLines([]) == [] by {
        NoLinesInNothing();
      }
    } else {
      var p, rest := pairs[0], Spelled(pairs[1..]);
      SpelledFirst(p, rest);
      ReadsBackExactly(pairs[1..]);
      assert pairs == [p] + pairs[1..];
      assert LinesOf(pairs) == [PairLine(p)] + LinesOf(pairs[1..]);
      var lines := SplitLines(Spelled(pairs));
      assert ReadFile(Spelled(pairs))[0] == ReadLine(lines[0]);
      if CleanPair(p) {
        LineRoundTrip(p);
        assert lines[1..] == SplitLines(rest);
        assert ReadFile(Spelled(pairs)) == [PairLine(p)] + ReadFile(rest);
        DamageStays(PairLine(p), ReadFile(rest));
        assert ReadFile(rest) == ReadFile(Spelled(pairs))[1..] && LinesOf(pairs[1..]) == LinesOf(pairs)[1..];
        assert forall q :: q in pairs <==> q == p || q in pairs[1..];
      } else {
        assert LinesOf(pairs)[0] == PairLine(p);
      }
    }
  }

  lemma NoLinesInNothing()
    ensures SplitLines([]) == []
  {
  }

  lemma DamageStays(line: Line, lines: seq<Line>)
    ensures !Readable(lines) ==> !Readable([line] + lines)
  {
    if Readable([line] + lines) {
      forall i | 0 <= i < |lines|
        ensures lines[i].BlankLine? || (lines[i].PairLine? && IsWhole(lines[i].pair))
      {
        assert ([line] + lines)[i + 1] == lines[i];
      }
    }
  }
}
