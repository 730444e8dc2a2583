/** Reading the operator's word: yes, no, or an honest "not understood". */
module YesNo {
  import opened Wrappers
  import opened Text

  const NEGATIVE := {"нет", "no", "n", "не", "отмена", "отменяй", "стоп", "stop",
                     "not", "never", "nope", "don't", "dont"}
  const AFFIRMATIVE := {"да", "yes", "y", "д", "ага", "давай", "конечно", "точно"}
  const STEMS := ["принима", "принял", "подтвержда", "соглас", "финализир", "финализац"]
  const CONSENT_AFTER_NE := {"возражаю", "против", "возражаем"}
  const EMPTY_WORDS := {"и", "же", "ну", "с", "со", "пожалуйста", "please", "now", "сейчас",
                        "немедленно", "непременно", "точно", "конечно", "давай", "ага", "всё",
                        "все", "all", "go", "ahead"}

  const NE := "не"
  const DA := "да"

  /** Lower case for the Latin and Cyrillic letters the vocabulary is written in. */
  function LowerChar(c: char): char {
    if 'A' <= c <= 'Z' || 'А' <= c <= 'Я' then (c as int + 32) as char
    else if c == 'Ё' then 'ё'
    else c
  }

  function Lower(s: string): string {
    seq(|s|, i requires 0 <= i < |s| => LowerChar(s[i]))
  }

  /** Punctuation that carries no meaning becomes a space. */
  function Unpunctuated(s: string): string {
    seq(|s|, i requires 0 <= i < |s| => if s[i] in ",.!;:" then ' ' else s[i])
  }

  function Spoken(answer: string): seq<string> {
    Words(Unpunctuated(Lower(Strip(answer))))
  }

  // --- the words of an answer ------------------------------------------------

  /** What stands between two words of an answer. */
  predicate Separates(c: char) {
    IsSpace(c) || c in ",.!;:"
  }

  function Cleaned(s: string): string {
    Unpunctuated(Lower(s))
  }

  lemma CleanedApart(a: string, b: string)
    ensures Cleaned(a + b) == Cleaned(a) + Cleaned(b)
  {
  }

  lemma CleanedSpaces(c: char)
    ensures |Cleaned([c])| == 1 && (IsSpace(Cleaned([c])[0]) <==> Separates(c))
  {
  }

  lemma {:induction false} BlankBefore(h: string, s: string)
    requires Blank(h)
    ensures Words(Cleaned(h + s)) == Words(Cleaned(s))
  {
    hide Cleaned, Words;
    if h == [] {
      assert h + s == s;
    } else {
      assert h[0] in h && h + s == [h[0]] + (h[1..] + s);
      CleanedApart([h[0]], h[1..] + s);
      CleanedSpaces(h[0]);
      var gap := Cleaned([h[0]]);
      assert gap == [gap[0]] && [] + [gap[0]] + Cleaned(h[1..] + s) == gap + Cleaned(h[1..] + s);
      WordsDivide([], gap[0], Cleaned(h[1..] + s));
      OneWord([]);
      BlankBefore(h[1..], s);
    }
  }

  lemma {:induction false} BlankAfter(s: string, h: string)
    requires Blank(h)
    ensures Words(Cleaned(s + h)) == Words(Cleaned(s))
  {
    hide Cleaned, Words;
    if h == [] {
      assert s + h == s;
    } else {
      var init, last := h[..|h| - 1], h[|h| - 1];
      assert last in h && s + h == (s + init) + [last];
      CleanedApart(s + init, [last]);
      CleanedSpaces(last);
      var gap := Cleaned([last]);
      assert gap == [gap[0]] && Cleaned(s + init) + [gap[0]] + [] == Cleaned(s + init) + gap;
      WordsDivide(Cleaned(s + init), gap[0], []);
      OneWord([]);
      BlankAfter(s, init);
    }
  }

  lemma SpokenUnstripped(answer: string)
    ensures Spoken(answer) == Words(Cleaned(answer))
  {
    hide Words, Lower, Unpunctuated, StripLeft, StripRight;
    var left := StripLeft(answer);
    var head := answer[..|answer| - |left|];
    assert answer == head + left;
    BlankBefore(head, left);
    var text := StripRight(left);
    var tail := left[|text|..];
    assert left == text + tail;
    BlankAfter(text, tail);
  }

  /** White space and punctuation divide an answer into words, wherever they stand. */
  lemma SpokenDivides(a: string, c: char, b: string)
    requires Separates(c)
    ensures Spoken(a + [c] + b) == Spoken(a) + Spoken(b)
  {
    hide Words, Cleaned, Spoken;
    SpokenUnstripped(a);
    SpokenUnstripped(b);
    SpokenUnstripped(a + [c] + b);
    CleanedApart(a + [c], b);
    CleanedApart(a, [c]);
    CleanedSpaces(c);
    var gap := Cleaned([c]);
    assert gap == [gap[0]];
    WordsDivide(Cleaned(a), gap[0], Cleaned(b));
  }

  /** What is not divided is one word, in lower case. */
  lemma SpokenWhole(word: string)
    requires forall i :: 0 <= i < |word| ==> !Separates(word[i])
    ensures Spoken(word) == if word == [] then [] else [Lower(word)]
  {
    hide Words, Spoken;
    SpokenUnstripped(word);
    OneWord(Cleaned(word));
    assert Cleaned(word) == Lower(word);
  }

  /** Capitals are read as the small letters of the same place in their alphabet, and nothing else
      is changed. */
  lemma LettersAreLowered(c: char)
    ensures 'A' <= c <= 'Z' ==> LowerChar(c) as int - 'a' as int == c as int - 'A' as int
    ensures 'А' <= c <= 'Я' ==> LowerChar(c) as int - 'а' as int == c as int - 'А' as int
    ensures c == 'Ё' ==> LowerChar(c) == 'ё'
    ensures !('A' <= c <= 'Z' || 'А' <= c <= 'Я' || c == 'Ё') ==> LowerChar(c) == c
    ensures LowerChar(LowerChar(c)) == LowerChar(c)
  {
  }

  predicate HasStem(word: string) {
    exists i :: 0 <= i < |STEMS| && Contains(word, STEMS[i])
  }

  predicate Negates(word: string) {
    word in NEGATIVE || (NE <= word && HasStem(word))
  }

  predicate Consents(word: string) {
    word in AFFIRMATIVE || (HasStem(word) && !(NE <= word))
  }

  predicate Idiom(words: seq<string>) {
    |words| >= 2 && words[0] == NE && words[1] in CONSENT_AFTER_NE
  }

  /** An idiom of agreement that carries the particle of negation becomes one consent. */
  function Collapsed(words: seq<string>): seq<string> {
    if words == [] then []
    else if Idiom(words) then [DA] + Collapsed(words[2..])
    else [words[0]] + Collapsed(words[1..])
  }

  function VerdictOn(words: seq<string>): Option<bool> {
    if exists w :: w in words && Negates(w) then Some(false)
    else if !exists w :: w in words && Consents(w) then None
    else if forall w :: w in words ==> Consents(w) || w in EMPTY_WORDS then Some(true)
    else None
  }

  function Verdict(answer: string): Option<bool> {
    if '?' in answer then None
    else if Spoken(answer) == [] then None
    else VerdictOn(Collapsed(Spoken(answer)))
  }

  predicate ReadsYes(answer: string) {
    Verdict(answer) == Some(true)
  }

  method Collapse(words: seq<string>) returns (collapsed: seq<string>)
    ensures collapsed == Collapsed(words)
  {
    hide Negates, Consents, Idiom;
    collapsed := [];
    var i := 0;
    while i < |words|
      invariant 0 <= i <= |words|
      invariant collapsed + Collapsed(words[i..]) == Collapsed(words)
    {
      ghost var rest := words[i..];
      IdiomAhead(words, i);
      if words[i] == NE && i + 1 < |words| && words[i + 1] in CONSENT_AFTER_NE {
        assert rest[2..] == words[i + 2..];
        assert Collapsed(rest) == [DA] + Collapsed(words[i + 2..]);
        assert collapsed + Collapsed(rest) == (collapsed + [DA]) + Collapsed(words[i + 2..]);
        collapsed := collapsed + [DA];
        i := i + 2;
      } else {
        assert rest[1..] == words[i + 1..];
        assert Collapsed(rest) == [words[i]] + Collapsed(words[i + 1..]);
        assert collapsed + Collapsed(rest) == (collapsed + [words[i]]) + Collapsed(words[i + 1..]);
        collapsed := collapsed + [words[i]];
        i := i + 1;
      }
    }
  }

  lemma IdiomAhead(words: seq<string>, i: nat)
    requires i < |words|
    ensures Idiom(words[i..]) <==> words[i] == NE && i + 1 < |words| && words[i + 1] in CONSENT_AFTER_NE
  {
  }

  /** Yes, no, or not understood: a yes is agreement and nothing else, a no is a refusal anywhere,
      and a question is neither. */
  method ReadYesNo(answer: string) returns (verdict: Option<bool>)
    ensures verdict == Verdict(answer)
    ensures verdict == Some(true) <==> '?' !in answer && Agreement(Spoken(answer)) && SpeaksConsent(Spoken(answer))
    ensures verdict == Some(false) <==> '?' !in answer && Refuses(Spoken(answer))
  {
    YesIsPlainAgreement(answer);
    NoIsRefusal(answer);
    if '?' in answer {
      return None;
    }
    var words := Spoken(answer);
    if words == [] {
      return None;
    }
    var collapsed := Collapse(words);
    return VerdictOn(collapsed);
  }

  // --- what a verdict means for the words the operator actually said --------

  /** The language of agreement: idioms of consent, words of consent and empty words. */
  predicate Agreement(words: seq<string>) {
    words == [] ||
    (if Idiom(words) then Agreement(words[2..])
     else !Negates(words[0]) && (Consents(words[0]) || words[0] in EMPTY_WORDS) && Agreement(words[1..]))
  }

  predicate SpeaksConsent(words: seq<string>) {
    words != [] && (Idiom(words) || Consents(words[0]) || SpeaksConsent(words[1..]))
  }

  /** A word that negates, outside the idioms of consent. */
  predicate Refuses(words: seq<string>) {
    exists i :: 0 <= i < |words| && Negates(words[i]) && !Idiom(words[i..])
  }

  lemma DaIsPlainConsent()
    ensures Consents(DA) && !Negates(DA)
  {
    assert DA[0] != NE[0];
  }

  lemma {:induction false} CollapsedKeepsMeaning(words: seq<string>)
    ensures Agreement(words) <==>
            forall w :: w in Collapsed(words) ==> !Negates(w) && (Consents(w) || w in EMPTY_WORDS)
    ensures SpeaksConsent(words) <==> exists w :: w in Collapsed(words) && Consents(w)
  {
    DaIsPlainConsent();
    if words != [] {
      var head := if Idiom(words) then DA else words[0];
      var tail := if Idiom(words) then words[2..] else words[1..];
      CollapsedKeepsMeaning(tail);
      assert Collapsed(words) == [head] + Collapsed(tail);
      assert head in Collapsed(words);
      assert forall w :: w in Collapsed(words) <==> w == head || w in Collapsed(tail);
    }
  }

  /** Yes is said in the language of agreement and in no other way: any further word is a
      reservation, and a reservation is asked about rather than carried out. */
  lemma YesIsPlainAgreement(answer: string)
    ensures ReadsYes(answer) <==>
            '?' !in answer && Agreement(Spoken(answer)) && SpeaksConsent(Spoken(answer))
  {
    hide Spoken, Agreement, SpeaksConsent, Collapsed, Negates, Consents;
    CollapsedKeepsMeaning(Spoken(answer));
    CollapsedToNothing(Spoken(answer));
  }

  lemma CollapsedToNothing(words: seq<string>)
    ensures Collapsed(words) == [] <==> words == []
  {
    hide Idiom;
  }

  lemma IdiomsDoNotNegate(word: string)
    requires word in CONSENT_AFTER_NE
    ensures !Negates(word)
  {
    assert word[0] != NE[0];
    assert word != "не" && word != "нет";
  }

  lemma {:induction false} NegationSurvives(before: seq<string>, word: string, after: seq<string>)
    requires Negates(word) && !Idiom([word] + after)
    ensures word in Collapsed(before + [word] + after)
  {
    var words := before + [word] + after;
    if before == [] {
      assert words == [word] + after;
    } else if Idiom(words) {
      IdiomsDoNotNegate(words[1]);
      assert words[1] == (if |before| > 1 then before[1] else word);
      assert words[2..] == before[2..] + [word] + after;
      NegationSurvives(before[2..], word, after);
    } else {
      assert words[1..] == before[1..] + [word] + after;
      NegationSurvives(before[1..], word, after);
    }
  }

  /** Negation dominates: one word of refusal anywhere decides, whatever stands around it. */
  lemma NegationDominates(answer: string, before: seq<string>, word: string, after: seq<string>)
    requires '?' !in answer && Spoken(answer) == before + [word] + after
    requires Negates(word) && !Idiom([word] + after)
    ensures Verdict(answer) == Some(false)
  {
    NegationSurvives(before, word, after);
  }

  lemma {:induction false} NegationsWereSpoken(words: seq<string>, w: string)
    requires w in Collapsed(words) && Negates(w)
    ensures Refuses(words)
  {
    hide Negates;
    DaIsPlainConsent();
    var head := if Idiom(words) then DA else words[0];
    var from := if Idiom(words) then 2 else 1;
    assert words[0..] == words && Collapsed(words) == [head] + Collapsed(words[from..]);
    if w == head {
      assert Negates(words[0]) && !Idiom(words[0..]);
    } else {
      NegationsWereSpoken(words[from..], w);
      var i :| 0 <= i < |words[from..]| && Negates(words[from..][i]) && !Idiom(words[from..][i..]);
      assert words[from..][i..] == words[from + i..];
      assert Negates(words[from + i]) && !Idiom(words[from + i..]);
    }
  }

  lemma RefusalsAreKept(words: seq<string>)
    ensures Refuses(words) <==> exists w :: w in Collapsed(words) && Negates(w)
  {
    hide Negates, Idiom, Collapsed;
    if Refuses(words) {
      var i :| 0 <= i < |words| && Negates(words[i]) && !Idiom(words[i..]);
      assert words == words[..i] + [words[i]] + words[i + 1..] && words[i..] == [words[i]] + words[i + 1..];
      NegationSurvives(words[..i], words[i], words[i + 1..]);
    }
    if w :| w in Collapsed(words) && Negates(w) {
      NegationsWereSpoken(words, w);
    }
  }

  /** No is said by a word that negates outside an idiom of consent, and in no other way. */
  lemma NoIsRefusal(answer: string)
    ensures Verdict(answer) == Some(false) <==> '?' !in answer && Refuses(Spoken(answer))
  {
    hide Negates, Consents, Idiom, Spoken;
    RefusalsAreKept(Spoken(answer));
  }

  /** What is asked again: a question, silence, words without consent, and consent with a
      reservation, as long as nothing in them refuses. */
  lemma AskedAgainExactly(answer: string)
    ensures var words := Spoken(answer);
            Verdict(answer).None? <==>
            || '?' in answer
            || words == []
            || (!Refuses(words) && !SpeaksConsent(words))
            || (!Refuses(words) && SpeaksConsent(words) && !Agreement(words))
  {
    hide Negates, Consents, Idiom, Spoken, VerdictOn;
    YesIsPlainAgreement(answer);
    NoIsRefusal(answer);
    var words := Spoken(answer);
    if Agreement(words) {
      AgreementDoesNotRefuse(words);
    }
    match Verdict(answer)
    case None =>
    case Some(yes) => assert Some(yes) == if yes then Some(true) else Some(false);
  }

  lemma {:induction false} AgreementDoesNotRefuse(words: seq<string>)
    requires Agreement(words)
    ensures !Refuses(words)
  {
    CollapsedKeepsMeaning(words);
    RefusalsAreKept(words);
  }

  lemma StemsAreLong(word: string)
    requires |word| < 6
    ensures !HasStem(word)
  {
    StemShapes();
  }

  lemma StemsBeginOtherwise(word: string)
    requires 'п' !in word && 'с' !in word && 'ф' !in word
    ensures !HasStem(word)
  {
    StemShapes();
    forall i, k | 0 <= i < |STEMS| && 0 <= k <= |word| && STEMS[i] <= word[k..]
      ensures STEMS[i][0] in word
    {
      assert STEMS[i][0] == word[k];
    }
  }

  lemma StemShapes()
    ensures forall i :: 0 <= i < |STEMS| ==> |STEMS[i]| >= 6 && STEMS[i][0] in ['п', 'с', 'ф']
  {
    assert |STEMS[0]| == 7 && |STEMS[1]| == 6 && |STEMS[2]| == 10;
    assert |STEMS[3]| == 6 && |STEMS[4]| == 9 && |STEMS[5]| == 9;
  }

  lemma StemStands(word: string, at: nat, i: nat)
    requires at <= |word| && i < |STEMS| && STEMS[i] <= word[at..]
    ensures HasStem(word)
  {
  }

  /** The words of the documentation: a negated stem refuses, an adverb that begins like one does
      not, and the rest of a reservation is neither consent nor refusal. */
  lemma WordsOfTheDocumentation()
    ensures Consents("да") && !Negates("да") && Negates("нет") && Negates("не")
    ensures !Consents("но") && !Negates("но") && "но" !in EMPTY_WORDS
    ensures !Consents("позже") && !Negates("позже")
    ensures Negates("несогласен") && !Consents("несогласен")
    ensures !Negates("немедленно") && "немедленно" in EMPTY_WORDS
    ensures Consents("финализируй") && !Negates("финализируй")
  {
    hide HasStem;
    DaIsPlainConsent();
    StemsAreLong("но");
    StemsAreLong("позже");
    StemsBeginOtherwise("немедленно");
    assert STEMS[3] <= "несогласен"[2..];
    StemStands("несогласен", 2, 3);
    assert STEMS[4] <= "финализируй"[0..];
    StemStands("финализируй", 0, 4);
    assert "несогласен"[..2] == NE && "финализируй"[0] != NE[0] && "позже"[0] != NE[0] && "но"[1] != NE[1];
  }

  /** "Yes, but later" is asked about, "certainly not" and "I disagree" are a no, and "I do not mind"
      and "yes, finalise at once" are a yes. */
  lemma DocumentedAnswers(words: seq<string>)
    ensures words == ["да", "но", "позже"] ==> !Refuses(words) && SpeaksConsent(words) && !Agreement(words)
    ensures words == ["точно", "нет"] || words == ["несогласен"] ==> Refuses(words)
    ensures words == ["не", "возражаю"] || words == ["да", "немедленно", "финализируй"] ==>
              Agreement(words) && SpeaksConsent(words)
  {
    hide Negates, Consents;
    WordsOfTheDocumentation();
    if words == ["да", "но", "позже"] {
      assert words[1..] == ["но", "позже"] && !Idiom(words) && !Idiom(words[1..]);
    } else if words == ["точно", "нет"] {
      assert Negates(words[1]) && !Idiom(words[1..]);
    } else if words == ["несогласен"] {
      assert Negates(words[0]) && !Idiom(words[0..]);
    } else if words == ["не", "возражаю"] {
      assert Idiom(words) && words[2..] == [];
    } else if words == ["да", "немедленно", "финализируй"] {
      var last := ["финализируй"];
      assert last[1..] == [] && !Idiom(last) && Agreement(last) && SpeaksConsent(last);
      var two := ["немедленно", "финализируй"];
      assert two[1..] == last && words[1..] == two && two[0] != NE && words[0] != NE;
      assert Agreement(two);
    }
  }

  /** An answer that was understood was not an empty one. */
  lemma UnderstoodIsNotBlank(answer: string)
    requires Verdict(answer).Some?
    ensures !Blank(answer)
  {
    if Blank(answer) {
      StripOfBlank(answer);
      BlankHasNoWords(Unpunctuated(Lower("")), []);
    }
  }
}
