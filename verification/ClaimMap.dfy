/** The claim map: what each party may sign, what a signature is bound to, and what of it the gate
    can check again once the map is published. */
module ClaimMap {
  import opened Wrappers
  import opened Text
  import opened Snapshot
  import Ledger

  datatype Status = Unconfirmed | Confirmed | Simplified | Withdrawn

  datatype Party = Development | Informed | Operator

  datatype Form = Exact | Rounded

  predicate IsTerminal(s: Status) {
    !s.Unconfirmed?
  }

  /** Who may put a row into a terminal status. Development appears nowhere. */
  function MaySet(s: Status): Party
    requires IsTerminal(s)
  {
    if s.Withdrawn? then Operator else Informed
  }

  datatype Passport = Passport(originalFact: string, withheld: string, permittedBy: string) {
    predicate IsFull() {
      !Blank(originalFact) && !Blank(withheld) && !Blank(permittedBy)
    }
  }

  /** Typed evidence of reading; `problems` counts what is wrong with its shape. */
  datatype Evidence = Evidence(block: string, problems: nat)

  /** What a signature is given against is the hash of one joined text. */
  datatype Attestation = Attestation(signer: Party, basis: string, triple: Digest, evidence: Option<Evidence>)

  const DASH := "—"

  function FormText(f: Option<Form>): string {
    match f
    case None => DASH
    case Some(Exact) => "точная"
    case Some(Rounded) => "округлённая"
  }

  /** An absent step and an empty one are written as a dash. */
  function StepText(step: Option<string>): string {
    if step.None? || step.value == "" then DASH else step.value
  }

  function QuoteHash(quote: string): Digest {
    Sha256OfText(Normalized(quote))
  }

  predicate HexText(s: string) {
    forall c :: c in s ==> '0' <= c <= '9' || 'a' <= c <= 'f'
  }

  /** How digests are written out: each in its own way, in hexadecimal digits. */
  ghost predicate SpellsDigests(hex: Digest -> string) {
    && (forall d: Digest :: HexText(hex(d)))
    && (forall d: Digest, e: Digest :: hex(d) == hex(e) ==> d == e)
  }

  /** The text a triple is the hash of: four parts, joined by bars. */
  function Material(id: string, quote: string, form: string, step: string): string {
    id + "|" + AfterId(quote, form, step)
  }

  function AfterId(quote: string, form: string, step: string): string {
    quote + "|" + (form + "|" + step)
  }

  lemma FormTextIsInjective(f: Option<Form>, g: Option<Form>)
    requires FormText(f) == FormText(g)
    ensures f == g
  {
    assert FormText(None)[0] == '—' && FormText(Some(Exact))[0] == 'т' && FormText(Some(Rounded))[0] == 'о';
  }

  /** A form is no part that could be taken for two, or for a digest. */
  lemma FormsStandApart(f: Option<Form>)
    ensures '|' !in FormText(f) && !HexText(FormText(f))
  {
    assert FormText(f)[0] in FormText(f);
  }

  // --- one row -------------------------------------------------------------------------

  datatype ClaimRow = ClaimRow(
    id: string,
    section: string,
    quote: string,
    recordedStatus: Status,
    recordedForm: Option<Form>,
    roundingStep: Option<string>,
    passport: Option<Passport>,
    statusAttestation: Option<Attestation>,
    formAttestation: Option<Attestation>)
  {
    function TripleText(hex: Digest -> string): string {
      Material(id, hex(QuoteHash(quote)), FormText(recordedForm), StepText(roundingStep))
    }

    function Tail(hex: Digest -> string): string {
      AfterId(hex(QuoteHash(quote)), FormText(recordedForm), StepText(roundingStep))
    }

    function CurrentTriple(hex: Digest -> string): Digest {
      Sha256OfText(TripleText(hex))
    }

    /** Signed by the expected party, against what the row says now. */
    predicate SignedBy(a: Option<Attestation>, expected: Party, hex: Digest -> string) {
      a.Some? && a.value.triple == CurrentTriple(hex) && a.value.signer == expected
    }

    predicate HasPassport() {
      passport.Some? && passport.value.IsFull()
    }

    predicate HasEvidence() {
      && statusAttestation.Some? && statusAttestation.value.evidence.Some?
      && statusAttestation.value.evidence.value.problems == 0
    }

    /** The status that counts, recomputed from what the row says now. */
    function CountingStatus(hex: Digest -> string): Status {
      if recordedStatus.Unconfirmed? then Unconfirmed
      else if recordedStatus.Simplified? && !HasPassport() then Unconfirmed
      else if !SignedBy(statusAttestation, MaySet(recordedStatus), hex) then Unconfirmed
      else if recordedStatus.Confirmed? && !HasEvidence() then Unconfirmed
      else recordedStatus
    }

    /** The form that counts: exact until confirmed. */
    function CountingForm(hex: Digest -> string): Option<Form> {
      if recordedForm.None? then None
      else if !SignedBy(formAttestation, Informed, hex) then Some(Exact)
      else recordedForm
    }

    function BlockingReason(hex: Digest -> string): Option<Blocked> {
      if IsTerminal(CountingStatus(hex)) then None
      else if recordedStatus.Unconfirmed? then Some(NotTakenUp)
      else if recordedStatus.Simplified? && !HasPassport() then Some(NoPassport)
      else if statusAttestation.None? then Some(NotSigned)
      else if statusAttestation.value.triple != CurrentTriple(hex) then Some(SignedOtherContent)
      else if statusAttestation.value.signer != MaySet(recordedStatus) then Some(SignedByOther)
      else Some(NoEvidence)
    }
  }

  datatype Blocked = NotTakenUp | NoPassport | NotSigned | SignedOtherContent | SignedByOther | NoEvidence

  /** A row blocks exactly while its counting status is not terminal, and the reason it gives is
      the true one: the last branch is reached only by confirmations without evidence. */
  lemma BlocksExactlyUntilTerminal(row: ClaimRow, hex: Digest -> string)
    ensures row.BlockingReason(hex).None? <==> IsTerminal(row.CountingStatus(hex))
    ensures row.BlockingReason(hex) == Some(SignedOtherContent) ==>
              row.statusAttestation.Some? && row.statusAttestation.value.triple != row.CurrentTriple(hex)
    ensures row.BlockingReason(hex) == Some(SignedByOther) ==>
              && row.statusAttestation.value.triple == row.CurrentTriple(hex)
              && row.statusAttestation.value.signer != MaySet(row.recordedStatus)
    ensures row.BlockingReason(hex) == Some(NoEvidence) ==>
              row.recordedStatus.Confirmed? && row.SignedBy(row.statusAttestation, Informed, hex) && !row.HasEvidence()
  {
    hide QuoteHash, StepText, FormText, Blank, Material, AfterId;
  }

  /** Sign what the row says now. */
  function Attest(row: ClaimRow, signer: Party, basis: string, evidence: Option<Evidence>,
                  hex: Digest -> string): Attestation {
    Attestation(signer, basis, row.CurrentTriple(hex), evidence)
  }

  // --- what a signature is bound to -------------------------------------------------------

  /** The same claim in the same form: the quote up to white space, and the same step, where none,
      an empty one and a literal dash are one. */
  predicate SameClaim(a: ClaimRow, b: ClaimRow) {
    && a.id == b.id && Normalized(a.quote) == Normalized(b.quote)
    && a.recordedForm == b.recordedForm && StepText(a.roundingStep) == StepText(b.roundingStep)
  }

  /** No two different claims under these identifiers share a triple. */
  ghost predicate ToldApart(x: string, y: string, hex: Digest -> string) {
    forall a: ClaimRow, b: ClaimRow ::
      a.id == x && b.id == y && a.CurrentTriple(hex) == b.CurrentTriple(hex) ==> SameClaim(a, b)
  }

  /** The parts after the identifier say what the rest of the claim is. */
  lemma PartsAreClaims(a: ClaimRow, b: ClaimRow, hex: Digest -> string)
    requires SpellsDigests(hex) && a.id == b.id
    requires a.Tail(hex) == b.Tail(hex)
    ensures SameClaim(a, b)
  {
    hide Normalized, StepText, FormText;
    assert HexText(hex(QuoteHash(a.quote))) && HexText(hex(QuoteHash(b.quote)));
    FormsStandApart(a.recordedForm);
    FormsStandApart(b.recordedForm);
    FirstBarDecides(hex(QuoteHash(a.quote)), FormText(a.recordedForm) + "|" + StepText(a.roundingStep),
                    hex(QuoteHash(b.quote)), FormText(b.recordedForm) + "|" + StepText(b.roundingStep));
    FirstBarDecides(FormText(a.recordedForm), StepText(a.roundingStep),
                    FormText(b.recordedForm), StepText(b.roundingStep));
    FormTextIsInjective(a.recordedForm, b.recordedForm);
  }

  /** Under identifiers without a bar, one triple is one claim. */
  lemma TriplesAreClaims(a: ClaimRow, b: ClaimRow, hex: Digest -> string)
    requires SpellsDigests(hex) && '|' !in a.id && '|' !in b.id
    ensures a.CurrentTriple(hex) == b.CurrentTriple(hex) <==> SameClaim(a, b)
  {
    hide Normalized, StepText, FormText;
    if a.CurrentTriple(hex) == b.CurrentTriple(hex) {
      FirstBarDecides(a.id, a.Tail(hex), b.id, b.Tail(hex));
      PartsAreClaims(a, b, hex);
    }
  }

  /** An identifier that goes on, after another one, with a hash and a form. */
  predicate GoesOnWith(longer: string, shorter: string, quote: string, form: Option<Form>, rest: string,
                       hex: Digest -> string) {
    && longer == shorter + "|" + (hex(QuoteHash(quote)) + "|" + (FormText(form) + rest))
    && (rest == "" || rest[0] == '|')
  }

  ghost predicate GoesOn(longer: string, shorter: string, hex: Digest -> string) {
    exists quote, form, rest :: GoesOnWith(longer, shorter, quote, form, rest, hex)
  }

  /** Neither of the two identifiers goes on after the other. */
  ghost predicate KeptApart(x: string, y: string, hex: Digest -> string) {
    !GoesOn(x, y, hex) && !GoesOn(y, x, hex)
  }

  /** What a shared triple says of the longer of two identifiers. */
  lemma LongerGoesOn(a: ClaimRow, b: ClaimRow, hex: Digest -> string)
    requires SpellsDigests(hex) && |a.id| < |b.id| && a.TripleText(hex) == b.TripleText(hex)
    ensures GoesOn(b.id, a.id, hex)
  {
    hide Normalized, StepText, FormText, QuoteHash;
    var hashA, hashB := hex(QuoteHash(a.quote)), hex(QuoteHash(b.quote));
    var formA, formB := FormText(a.recordedForm), FormText(b.recordedForm);
    var stepA := StepText(a.roundingStep);
    var tail := hashB + "|" + (formB + "|" + StepText(b.roundingStep));
    assert HexText(hashA) && HexText(hashB);
    FormsStandApart(a.recordedForm);
    var text := a.TripleText(hex);
    var more := b.id[|a.id| + 1..];
    assert text[..|a.id| + 1] == a.id + "|" && text[..|b.id|] == b.id;
    assert b.id[..|a.id| + 1] == text[..|a.id| + 1];
    assert b.id == a.id + "|" + more;
    assert text[|a.id| + 1..] == hashA + "|" + (formA + "|" + stepA) == more + "|" + tail;
    assert '|' in more by {
      if '|' !in more {
        FirstBarDecides(hashA, formA + "|" + stepA, more, tail);
        FirstBarDecides(formA, stepA, hashB, formB + "|" + StepText(b.roundingStep));
      }
    }
    HashAndForm(a, b.id, more, tail, hex);
  }

  /** Before the rest of the longer identifier ends, the text has named a hash and a form. */
  lemma HashAndForm(a: ClaimRow, longer: string, more: string, tail: string, hex: Digest -> string)
    requires SpellsDigests(hex) && '|' in more && longer == a.id + "|" + more
    requires a.Tail(hex) == more + "|" + tail
    ensures GoesOn(longer, a.id, hex)
  {
    hide Normalized, StepText, FormText, QuoteHash;
    var hashA, formA, stepA := hex(QuoteHash(a.quote)), FormText(a.recordedForm), StepText(a.roundingStep);
    assert HexText(hashA);
    FormsStandApart(a.recordedForm);
    var u, v := SplitAtBar(more);
    assert more + "|" + tail == u + "|" + (v + "|" + tail);
    FirstBarDecides(hashA, formA + "|" + stepA, u, v + "|" + tail);
    if '|' !in v {
      FirstBarDecides(formA, stepA, v, tail);
      assert formA + "" == formA;
      assert GoesOnWith(longer, a.id, a.quote, a.recordedForm, "", hex);
    } else {
      var w, z := SplitAtBar(v);
      assert v + "|" + tail == w + "|" + (z + "|" + tail);
      FirstBarDecides(formA, stepA, w, z + "|" + tail);
      assert v == formA + ("|" + z);
      assert GoesOnWith(longer, a.id, a.quote, a.recordedForm, "|" + z, hex);
    }
  }

  function PlainRow(id: string, quote: string, form: Option<Form>, step: string): ClaimRow {
    ClaimRow(id, "", quote, Unconfirmed, form, Some(step), None, None, None)
  }

  lemma Rejoined(id: string, hash: string, form: string, rest: string, tail: string, step: string)
    requires rest + "|" + tail == "|" + step
    ensures id + "|" + (hash + "|" + (form + rest)) + "|" + tail == Material(id, hash, form, step)
  {
    var named := hash + "|" + (form + rest);
    assert (form + rest) + "|" + tail == form + (rest + "|" + tail) == form + "|" + step;
    assert named + "|" + tail == hash + "|" + ((form + rest) + "|" + tail);
    assert (id + "|" + named) + "|" + tail == id + "|" + (named + "|" + tail);
  }

  /** Two claims with one triple, wherever an identifier goes on after another one. */
  lemma GoingOnCollides(longer: string, shorter: string, quote: string, form: Option<Form>, rest: string,
                        hex: Digest -> string)
    requires GoesOnWith(longer, shorter, quote, form, rest, hex)
    ensures !ToldApart(shorter, longer, hex) && !ToldApart(longer, shorter, hex)
  {
    hide QuoteHash, FormText, Normalized;
    var tail := hex(QuoteHash("")) + "|" + (FormText(None) + "|" + "x");
    var step := if rest == "" then tail else rest[1..] + "|" + tail;
    var a, b := PlainRow(shorter, quote, form, step), PlainRow(longer, "", None, "x");
    assert rest + "|" + tail == "|" + step;
    Rejoined(shorter, hex(QuoteHash(quote)), FormText(form), rest, tail, step);
    assert a.TripleText(hex) == b.TripleText(hex);
    assert a.CurrentTriple(hex) == b.CurrentTriple(hex) && a.id != b.id;
  }

  /** Two identifiers keep their claims apart exactly when neither goes on after the other with a
      hash and a form. */
  lemma ToldApartExactly(x: string, y: string, hex: Digest -> string)
    requires SpellsDigests(hex)
    ensures ToldApart(x, y, hex) <==> KeptApart(x, y, hex)
  {
    hide QuoteHash, FormText, StepText, SameClaim;
    if GoesOn(x, y, hex) {
      var quote, form, rest :| GoesOnWith(x, y, quote, form, rest, hex);
      GoingOnCollides(x, y, quote, form, rest, hex);
    } else if GoesOn(y, x, hex) {
      var quote, form, rest :| GoesOnWith(y, x, quote, form, rest, hex);
      GoingOnCollides(y, x, quote, form, rest, hex);
    } else {
      forall a: ClaimRow, b: ClaimRow | a.id == x && b.id == y && a.CurrentTriple(hex) == b.CurrentTriple(hex)
        ensures SameClaim(a, b)
      {
        OneTripleOneClaim(a, b, hex);
      }
    }
  }

  lemma OneTripleOneClaim(a: ClaimRow, b: ClaimRow, hex: Digest -> string)
    requires SpellsDigests(hex) && KeptApart(a.id, b.id, hex)
    requires a.CurrentTriple(hex) == b.CurrentTriple(hex)
    ensures SameClaim(a, b)
  {
    hide QuoteHash, FormText, StepText, SameClaim, GoesOn;
    if |a.id| < |b.id| {
      LongerGoesOn(a, b, hex);
    } else if |b.id| < |a.id| {
      LongerGoesOn(b, a, hex);
    } else {
      var text := a.TripleText(hex);
      assert text[..|a.id|] == a.id && text[..|b.id|] == b.id;
      assert text[|a.id| + 1..] == a.Tail(hex);
      assert text[|b.id| + 1..] == b.Tail(hex);
      PartsAreClaims(a, b, hex);
    }
  }

  /** The check a caller can make: rows that carry numbers are kept apart, and so is a row from
      any edit of it under the same identifier. */
  lemma NumberedRowsAreKeptApart(a: ClaimRow, b: ClaimRow, hex: Digest -> string)
    requires a.id == b.id || (HasNumber(a) && HasNumber(b))
    ensures KeptApart(a.id, b.id, hex)
  {
    hide QuoteHash, FormText, Ledger.CanonicalNumber, GoesOn;
    if a.id != b.id {
      NumbersHaveNoBar(a);
      NumbersHaveNoBar(b);
    }
    GoingOnTakesABar(a.id, b.id, hex);
    GoingOnTakesABar(b.id, a.id, hex);
  }

  lemma GoingOnTakesABar(longer: string, shorter: string, hex: Digest -> string)
    ensures GoesOn(longer, shorter, hex) ==> '|' in longer && longer != shorter
  {
    hide QuoteHash, FormText;
    if GoesOn(longer, shorter, hex) {
      var quote, form, rest :| GoesOnWith(longer, shorter, quote, form, rest, hex);
      assert longer[|shorter|] == '|' && |longer| > |shorter|;
    }
  }

  lemma NumbersHaveNoBar(row: ClaimRow)
    requires HasNumber(row)
    ensures '|' !in row.id
  {
    var n := Ledger.CanonicalNumber("M", row.id).value;
    Ledger.OneSpelling("M", row.id, n);
    forall i | 0 <= i < |row.id|
      ensures row.id[i] != '|'
    {
      assert i >= 2 ==> row.id[i] == Digits(n)[i - 2] && IsDigit(Digits(n)[i - 2]);
    }
  }

  /** A row whose identifier holds bars can count as confirmed by a signature that was given for
      another quote of another row. */
  lemma BarsCarrySignaturesOver(quote: string, other: string, evidence: Evidence, hex: Digest -> string)
    requires evidence.problems == 0
    ensures var hash := hex(QuoteHash(other));
            var signed := PlainRow("M-1", quote, None, hash + "|—|x");
            var forged := PlainRow("M-1|" + (hex(QuoteHash(quote)) + "|—"), other, None, "x")
                          .(recordedStatus := Confirmed,
                            statusAttestation := Some(Attest(signed, Informed, "read", Some(evidence), hex)));
            forged.CountingStatus(hex) == Confirmed && !SameClaim(signed, forged)
  {
    hide QuoteHash;
    var hash, first := hex(QuoteHash(other)), hex(QuoteHash(quote));
    var signed := PlainRow("M-1", quote, None, hash + "|—|x");
    var forged := PlainRow("M-1|" + (first + "|—"), other, None, "x");
    assert hash + "|—|x" == hash + "|" + ("—" + "|" + "x");
    assert signed.TripleText(hex) == "M-1" + "|" + (first + "|" + ("—" + "|" + (hash + "|—|x")));
    assert forged.TripleText(hex) == "M-1|" + (first + "|—") + "|" + (hash + "|" + ("—" + "|" + "x"));
    assert signed.TripleText(hex) == forged.TripleText(hex);
  }

  /** Steps that are really steps are told apart by the signature. */
  lemma RealStepsAreBound(a: ClaimRow, b: ClaimRow, hex: Digest -> string)
    requires SpellsDigests(hex) && KeptApart(a.id, b.id, hex) && a.CurrentTriple(hex) == b.CurrentTriple(hex)
    requires a.roundingStep.Some? && b.roundingStep.Some? && a.roundingStep.value !in {"", DASH}
    ensures a.roundingStep == b.roundingStep
  {
    hide Normalized, KeptApart, FormText, Material;
    OneTripleOneClaim(a, b, hex);
  }

  // --- over any history of signatures and edits -----------------------------------------

  /** One act of signing: who signed which row, as it then was. */
  datatype Signing = Signing(signer: Party, row: ClaimRow, basis: string, evidence: Option<Evidence>) {
    function Signature(hex: Digest -> string): Attestation {
      Attest(row, signer, basis, evidence, hex)
    }
  }

  predicate WasGiven(history: seq<Signing>, a: Attestation, hex: Digest -> string) {
    exists i :: 0 <= i < |history| && history[i].Signature(hex) == a
  }

  /** Rows are edited, replaced and copied at will; only signatures cannot be made up. */
  predicate FromHistory(history: seq<Signing>, row: ClaimRow, hex: Digest -> string) {
    && (row.statusAttestation.Some? ==> WasGiven(history, row.statusAttestation.value, hex))
    && (row.formAttestation.Some? ==> WasGiven(history, row.formAttestation.value, hex))
  }

  /** The row is kept apart from every row that was ever signed. */
  ghost predicate Separate(history: seq<Signing>, row: ClaimRow, hex: Digest -> string) {
    SpellsDigests(hex) && forall i :: 0 <= i < |history| ==> KeptApart(history[i].row.id, row.id, hex)
  }

  predicate SignedClaim(history: seq<Signing>, row: ClaimRow, party: Party) {
    exists i :: 0 <= i < |history| && history[i].signer == party && SameClaim(history[i].row, row)
  }

  /** A terminal status counts only if the party entitled to it once signed this very claim: no
      edit, no copy from a neighbour and no signature of development ever carries one over. */
  lemma TerminalMeansSigned(history: seq<Signing>, row: ClaimRow, hex: Digest -> string)
    requires FromHistory(history, row, hex) && Separate(history, row, hex) && IsTerminal(row.CountingStatus(hex))
    ensures row.CountingStatus(hex) == row.recordedStatus
    ensures SignedClaim(history, row, MaySet(row.recordedStatus))
  {
    hide SameClaim, Material, KeptApart, SpellsDigests;
    var a := row.statusAttestation.value;
    var i :| 0 <= i < |history| && history[i].Signature(hex) == a;
    OneTripleOneClaim(history[i].row, row, hex);
  }

  /** A form other than the exact one counts only if the informed pass signed it for this claim. */
  lemma RoundedMeansSigned(history: seq<Signing>, row: ClaimRow, hex: Digest -> string)
    requires FromHistory(history, row, hex) && Separate(history, row, hex)
    requires row.CountingForm(hex) == Some(Rounded)
    ensures SignedClaim(history, row, Informed)
  {
    hide SameClaim, Material, KeptApart, SpellsDigests;
    var a := row.formAttestation.value;
    var i :| 0 <= i < |history| && history[i].Signature(hex) == a;
    OneTripleOneClaim(history[i].row, row, hex);
  }

  /** Rows that all carry numbers are a history in which no signature strays. */
  lemma NumberedHistoriesAreSeparate(history: seq<Signing>, row: ClaimRow, hex: Digest -> string)
    requires SpellsDigests(hex) && HasNumber(row) && forall i :: 0 <= i < |history| ==> HasNumber(history[i].row)
    ensures Separate(history, row, hex)
  {
    hide KeptApart, HasNumber;
    forall i | 0 <= i < |history|
      ensures KeptApart(history[i].row.id, row.id, hex)
    {
      NumberedRowsAreKeptApart(history[i].row, row, hex);
    }
  }

  /** Editing any part of the claim voids what was signed before, and narrows the form to exact;
      an edit under the same identifier always does. */
  lemma EditsVoidSignatures(row: ClaimRow, edited: ClaimRow, hex: Digest -> string)
    requires edited.statusAttestation == row.statusAttestation && edited.formAttestation == row.formAttestation
    requires IsTerminal(row.CountingStatus(hex)) && !SameClaim(row, edited)
    requires SpellsDigests(hex) && (edited.id == row.id || KeptApart(row.id, edited.id, hex))
    ensures !IsTerminal(edited.CountingStatus(hex))
    ensures row.SignedBy(row.formAttestation, Informed, hex) && edited.recordedForm.Some? ==>
              edited.CountingForm(hex) == Some(Exact)
  {
    hide SameClaim, Material, KeptApart, SpellsDigests;
    if edited.id == row.id {
      NumberedRowsAreKeptApart(row, edited, hex);
    }
    if row.CurrentTriple(hex) == edited.CurrentTriple(hex) {
      OneTripleOneClaim(row, edited, hex);
    }
  }

  /** Signing what stands there settles it, if the signer may and the rest is filled in. */
  lemma SigningSettles(row: ClaimRow, signer: Party, basis: string, evidence: Option<Evidence>, hex: Digest -> string)
    ensures var signed := row.(statusAttestation := Some(Attest(row, signer, basis, evidence, hex)));
            signed.CountingStatus(hex) == row.recordedStatus <==>
            (row.recordedStatus != Unconfirmed ==>
              && signer == MaySet(row.recordedStatus)
              && (row.recordedStatus.Simplified? ==> row.HasPassport())
              && (row.recordedStatus.Confirmed? ==> evidence.Some? && evidence.value.problems == 0))
  {
    hide QuoteHash, StepText, FormText, Blank, Material, AfterId;
    var signed := row.(statusAttestation := Some(Attest(row, signer, basis, evidence, hex)));
    assert signed.CurrentTriple(hex) == row.CurrentTriple(hex) && signed.HasPassport() == row.HasPassport();
  }

  /** The recorded form counts after a signature exactly when there is no form to confirm, the form is
      the exact one anyway, or the informed pass is the signer; otherwise the exact form stands in. */
  lemma SigningSettlesTheForm(row: ClaimRow, signer: Party, basis: string, hex: Digest -> string)
    ensures var signed := row.(formAttestation := Some(Attest(row, signer, basis, None, hex)));
            signed.CountingForm(hex)
            == if row.recordedForm == Some(Rounded) && signer != Informed then Some(Exact) else row.recordedForm
  {
    hide QuoteHash, StepText, FormText, Blank, Material, AfterId;
    var signed := row.(formAttestation := Some(Attest(row, signer, basis, None, hex)));
    assert signed.CurrentTriple(hex) == row.CurrentTriple(hex);
    assert row.recordedForm.Some? ==> row.recordedForm.value.Exact? || row.recordedForm.value.Rounded?;
  }

  // --- the wire --------------------------------------------------------------------------

  /** A row as it is published: the counting status and the counting form. */
  datatype PublishedRow = PublishedRow(
    id: string, section: string, quote: string, quoteHash: Digest, status: Status, triple: Digest,
    statusBy: Option<Party>, statusBasis: Option<string>, statusEvidence: Option<Evidence>,
    formOnlyMark: bool, form: Option<Form>, step: Option<string>,
    formBy: Option<Party>, formBasis: Option<string>, passport: Option<Passport>)

  predicate HasStep(row: ClaimRow) {
    row.recordedForm.Some? && row.roundingStep.Some? && row.roundingStep.value != ""
  }

  function Publish(row: ClaimRow, hex: Digest -> string): PublishedRow {
    var status, form := row.statusAttestation, row.formAttestation;
    PublishedRow(
      row.id, row.section, row.quote, QuoteHash(row.quote), row.CountingStatus(hex), row.CurrentTriple(hex),
      if status.Some? then Some(status.value.signer) else None,
      if status.Some? then Some(status.value.basis) else None,
      if status.Some? then status.value.evidence else None,
      row.CountingStatus(hex).Confirmed?,
      row.CountingForm(hex),
      if HasStep(row) then row.roundingStep else None,
      if form.Some? then Some(form.value.signer) else None,
      if form.Some? then Some(form.value.basis) else None,
      row.passport)
  }

  datatype RowRefusal = QuoteMoved | TripleMoved | NotEntitled | NoBasis | PassportGap

  /** What the gate checks again on the wire, without the attestations. */
  function RowRefusals(r: PublishedRow, hex: Digest -> string): seq<RowRefusal> {
    if !IsTerminal(r.status) then []
    else
      var material := Material(r.id, hex(QuoteHash(r.quote)), FormText(r.form), StepText(r.step));
      (if r.quoteHash != QuoteHash(r.quote) then [QuoteMoved] else []) +
      (if r.triple != Sha256OfText(material) then [TripleMoved] else []) +
      (if r.statusBy != Some(MaySet(r.status)) then [NotEntitled] else []) +
      (if r.statusBasis.None? || Blank(r.statusBasis.value) then [NoBasis] else []) +
      (if r.status.Simplified? && !(r.passport.Some? && r.passport.value.IsFull()) then [PassportGap] else [])
  }

  /** Two texts that begin alike end alike in form and step. */
  lemma FormsAndStepsAgree(id: string, hash: string, f: Option<Form>, s: string, g: Option<Form>, t: string)
    requires Material(id, hash, FormText(f), s) == Material(id, hash, FormText(g), t)
    ensures f == g && s == t
  {
    hide FormText;
    var a, b := FormText(f) + "|" + s, FormText(g) + "|" + t;
    assert Material(id, hash, FormText(f), s) == (id + "|" + hash + "|") + a;
    assert Material(id, hash, FormText(g), t) == (id + "|" + hash + "|") + b;
    var head := id + "|" + hash + "|";
    assert (head + a)[|head|..] == a && (head + b)[|head|..] == b;
    FormsStandApart(f);
    FormsStandApart(g);
    FirstBarDecides(FormText(f), s, FormText(g), t);
    FormTextIsInjective(f, g);
  }

  /** A published row passes the gate exactly when it is not terminal yet, or was signed with a
      basis, its form counts as recorded, and no step stands beside a missing form. */
  lemma GatePassesExactly(row: ClaimRow, hex: Digest -> string)
    ensures RowRefusals(Publish(row, hex), hex) == [] <==>
            (IsTerminal(row.CountingStatus(hex)) ==>
              && !Blank(row.statusAttestation.value.basis)
              && row.CountingForm(hex) == row.recordedForm
              && (row.recordedForm.None? ==> StepText(row.roundingStep) == DASH))
  {
    hide QuoteHash, Blank, Material, FormText;
    if IsTerminal(row.CountingStatus(hex)) {
      var p := Publish(row, hex);
      var hash := hex(QuoteHash(row.quote));
      if p.triple == Sha256OfText(Material(p.id, hash, FormText(p.form), StepText(p.step))) {
        FormsAndStepsAgree(row.id, hash, row.recordedForm, StepText(row.roundingStep), p.form, StepText(p.step));
      }
    }
  }

  // --- a whole map -------------------------------------------------------------------------

  datatype RowProblem =
    | BadIdentifier(id: string)
    | RepeatedIdentifier(id: string)
    | UnknownSection(id: string)
    | EmptyQuote(id: string)
    | RoundedWithoutStep(id: string)
    | StepWithoutForm(id: string)
    | SimplifiedWithoutPassport(id: string)
    | PassportIncomplete(id: string)
    | OutsideContract(id: string)

  predicate HasNumber(row: ClaimRow) {
    Ledger.CanonicalNumber("M", row.id).Some?
  }

  /** One row by itself is admissible in a version with these sections and contract items. */
  predicate RowAdmissible(row: ClaimRow, sections: set<string>, contract: Option<set<string>>) {
    && HasNumber(row) && row.section in sections && !Blank(row.quote)
    && (row.recordedForm == Some(Rounded) ==> row.roundingStep.Some? && !Blank(row.roundingStep.value))
    && (row.recordedForm.None? ==> StepText(row.roundingStep) == DASH && row.roundingStep != Some(DASH))
    && (row.recordedStatus.Simplified? ==> row.passport.Some?)
    && (row.passport.Some? ==>
          row.passport.value.IsFull() && (contract.Some? ==> row.passport.value.permittedBy in contract.value))
  }

  predicate DistinctIds(rows: seq<ClaimRow>) {
    forall i, j :: 0 <= i < j < |rows| ==> rows[i].id != rows[j].id
  }

  /** What is wrong with one row, its number aside. */
  function ProblemsOf(row: ClaimRow, sections: set<string>, contract: Option<set<string>>): (problems: seq<RowProblem>)
    ensures HasNumber(row) ==> (problems == [] <==> RowAdmissible(row, sections, contract))
  {
    (if row.section !in sections then [UnknownSection(row.id)] else []) +
    (if Blank(row.quote) then [EmptyQuote(row.id)] else []) +
    (if row.recordedForm == Some(Rounded) && (row.roundingStep.None? || Blank(row.roundingStep.value))
     then [RoundedWithoutStep(row.id)] else []) +
    (if row.recordedForm.None? && row.roundingStep.Some? && row.roundingStep.value != ""
     then [StepWithoutForm(row.id)] else []) +
    (if row.recordedStatus.Simplified? && row.passport.None? then [SimplifiedWithoutPassport(row.id)] else []) +
    (if row.passport.Some? && !row.passport.value.IsFull() then [PassportIncomplete(row.id)] else []) +
    (if row.passport.Some? && contract.Some? && row.passport.value.permittedBy !in contract.value
     then [OutsideContract(row.id)] else [])
  }

  /** Why the rows are not an admissible map; a row without a number is not looked at further. */
  method ValidateRows(rows: seq<ClaimRow>, sections: set<string>, contract: Option<set<string>>)
    returns (problems: seq<RowProblem>)
    ensures problems == [] <==>
            DistinctIds(rows) && forall i :: 0 <= i < |rows| ==> RowAdmissible(rows[i], sections, contract)
  {
    hide RowAdmissible, Blank, Ledger.CanonicalNumber;
    problems := [];
    var seen: set<nat> := {};
    for i := 0 to |rows|
      invariant problems == [] ==> forall j :: 0 <= j < i ==> HasNumber(rows[j])
      invariant forall j :: 0 <= j < i && HasNumber(rows[j]) ==> Ledger.CanonicalNumber("M", rows[j].id).value in seen
      invariant forall n :: n in seen ==> exists j :: 0 <= j < i && Ledger.CanonicalNumber("M", rows[j].id) == Some(n)
      invariant problems == [] <==>
                DistinctIds(rows[..i]) && forall j :: 0 <= j < i ==> RowAdmissible(rows[j], sections, contract)
    {
      var row := rows[i];
      AdmissibleHasNumber(row, sections, contract);
      ghost var before := problems;
      if !HasNumber(row) {
        problems := problems + [BadIdentifier(row.id)];
      } else {
        var number := Ledger.CanonicalNumber("M", row.id).value;
        NumbersAreIds(rows[..i], row);
        if number in seen {
          problems := problems + [RepeatedIdentifier(row.id)];
        }
        seen := seen + {number};
        problems := problems + ProblemsOf(row, sections, contract);
      }
      OneMoreId(rows[..i], row);
      assert rows[..i + 1] == rows[..i] + [row];
    }
    assert rows[..|rows|] == rows;
  }

  lemma AdmissibleHasNumber(row: ClaimRow, sections: set<string>, contract: Option<set<string>>)
    ensures RowAdmissible(row, sections, contract) ==> HasNumber(row)
  {
    hide Blank, Ledger.CanonicalNumber;
  }

  lemma NumbersAreIds(rows: seq<ClaimRow>, row: ClaimRow)
    ensures forall j :: 0 <= j < |rows| && HasNumber(row) ==>
              (rows[j].id == row.id <==> Ledger.CanonicalNumber("M", rows[j].id) == Ledger.CanonicalNumber("M", row.id))
  {
    hide Ledger.CanonicalNumber;
    forall j | && 0 <= j < |rows| && HasNumber(row)
               && Ledger.CanonicalNumber("M", rows[j].id) == Ledger.CanonicalNumber("M", row.id)
      ensures rows[j].id == row.id
    {
      var n := Ledger.CanonicalNumber("M", row.id).value;
      Ledger.OneSpelling("M", row.id, n);
      Ledger.OneSpelling("M", rows[j].id, n);
    }
  }

  lemma OneMoreId(rows: seq<ClaimRow>, row: ClaimRow)
    ensures DistinctIds(rows + [row]) <==> DistinctIds(rows) && forall j :: 0 <= j < |rows| ==> rows[j].id != row.id
  {
    if DistinctIds(rows + [row]) {
      forall j | 0 <= j < |rows|
        ensures rows[j].id != row.id
      {
        assert (rows + [row])[j] == rows[j] && (rows + [row])[|rows|] == row;
      }
      forall i, j | 0 <= i < j < |rows|
        ensures rows[i].id != rows[j].id
      {
        assert (rows + [row])[j] == rows[j] && (rows + [row])[i] == rows[i];
      }
    }
  }

  // --- the message -------------------------------------------------------------------------

  const CLAIM_MAP_PHASE := "claim_map"

  const PAYLOAD_FIELDS := {"phase", "iteration", "artifact_seq", "rows"}

  const ROW_FIELDS := {
    "id", "section", "quote", "quote_sha256", "status", "status_by", "status_basis", "status_evidence",
    "evidence_verification", "form", "rounding_step", "passport", "form_by", "form_basis", "triple"
  }

  /** A row of a message: the names of its fields, and what stands in the known ones. */
  datatype WireRow = WireRow(fields: set<string>, row: PublishedRow)

  /** The rows as they arrived; one that is not an object is `None`. */
  datatype RowList = NotAList | Rows(items: seq<Option<WireRow>>)

  datatype MapPhase = MapPhase(fields: set<string>, phase: string, iteration: int, artifactSeq: int, rows: RowList)

  /** Which fields a published row has. */
  function FieldsOf(row: ClaimRow, hex: Digest -> string): set<string> {
    {"id", "section", "quote", "quote_sha256", "status", "triple"} +
    (if row.statusAttestation.Some? then {"status_by", "status_basis"} else {}) +
    (if row.statusAttestation.Some? && row.statusAttestation.value.evidence.Some? then {"status_evidence"} else {}) +
    (if row.CountingStatus(hex).Confirmed? then {"evidence_verification"} else {}) +
    (if row.recordedForm.Some? then {"form"} else {}) +
    (if HasStep(row) then {"rounding_step"} else {}) +
    (if row.formAttestation.Some? then {"form_by", "form_basis"} else {}) +
    (if row.passport.Some? then {"passport"} else {})
  }

  function WireRowOf(row: ClaimRow, hex: Digest -> string): WireRow {
    WireRow(FieldsOf(row, hex), Publish(row, hex))
  }

  /** Each published field is the row's own: what the row says, who signed which part and why. */
  predicate Shows(p: PublishedRow, row: ClaimRow) {
    && p.id == row.id && p.section == row.section && p.quote == row.quote && p.passport == row.passport
    && (match row.statusAttestation
        case None => p.statusBy.None? && p.statusBasis.None? && p.statusEvidence.None?
        case Some(a) =>
          p.statusBy == Some(a.signer) && p.statusBasis == Some(a.basis) && p.statusEvidence == a.evidence)
    && (match row.formAttestation
        case None => p.formBy.None? && p.formBasis.None?
        case Some(a) => p.formBy == Some(a.signer) && p.formBasis == Some(a.basis))
    && (p.step.Some? ==> p.step == row.roundingStep)
    && (row.recordedForm.Some? && row.roundingStep.Some? && row.roundingStep.value != "" ==> p.step == row.roundingStep)
    && (p.status == row.recordedStatus || p.status.Unconfirmed?) && (p.formOnlyMark <==> p.status.Confirmed?)
    && (p.form == row.recordedForm || (row.recordedForm == Some(Rounded) && p.form == Some(Exact)))
  }

  lemma PublishedRowsShow(row: ClaimRow, hex: Digest -> string)
    ensures Shows(WireRowOf(row, hex).row, row)
  {
    hide QuoteHash, StepText, FormText, Material, AfterId;
    assert row.recordedForm.Some? ==> row.recordedForm.value.Exact? || row.recordedForm.value.Rounded?;
  }

  method ToPayload(rows: seq<ClaimRow>, iteration: int, artifactSeq: int, hex: Digest -> string)
    returns (payload: MapPhase)
    ensures payload.fields == PAYLOAD_FIELDS && payload.phase == CLAIM_MAP_PHASE && payload.rows.Rows?
    ensures payload.iteration == iteration && payload.artifactSeq == artifactSeq
    ensures |payload.rows.items| == |rows|
    ensures forall i :: 0 <= i < |rows| ==> payload.rows.items[i] == Some(WireRowOf(rows[i], hex))
    ensures forall i :: 0 <= i < |rows| ==>
              payload.rows.items[i].Some? && Shows(payload.rows.items[i].value.row, rows[i])
  {
    hide WireRowOf, Shows;
    forall i | 0 <= i < |rows|
      ensures Shows(WireRowOf(rows[i], hex).row, rows[i])
    {
      PublishedRowsShow(rows[i], hex);
    }
    var out := [];
    for i := 0 to |rows|
      invariant |out| == i && forall j :: 0 <= j < i ==> out[j] == Some(WireRowOf(rows[j], hex))
    {
      out := out + [Some(WireRowOf(rows[i], hex))];
    }
    return MapPhase(PAYLOAD_FIELDS, CLAIM_MAP_PHASE, iteration, artifactSeq, Rows(out));
  }

  datatype FieldProblem =
    | UnknownField(name: string)
    | MissingField(name: string)
    | OtherPhase
    | RowsNotListed
    | RowNotAnObject
    | UnprovedReading
    | StrengthNotStated

  predicate HasText(w: WireRow, name: string, text: string) {
    name in w.fields && !Blank(text)
  }

  /** The row has known fields only, says what it is about, and a confirmation proves a reading
      and states how far the proof goes. */
  predicate RowReadable(w: WireRow) {
    && w.fields <= ROW_FIELDS
    && HasText(w, "id", w.row.id) && HasText(w, "section", w.row.section) && HasText(w, "quote", w.row.quote)
    && "status" in w.fields
    && (w.row.status.Confirmed? ==>
          w.row.statusEvidence.Some? && w.row.statusEvidence.value.problems == 0 && w.row.formOnlyMark)
  }

  predicate PhaseReadable(payload: MapPhase) {
    && payload.fields == PAYLOAD_FIELDS && payload.phase == CLAIM_MAP_PHASE && payload.rows.Rows?
    && forall i :: 0 <= i < |payload.rows.items| ==>
         payload.rows.items[i].Some? && RowReadable(payload.rows.items[i].value)
  }

  /** One problem for every name outside the list. */
  method NamesOutside(names: set<string>, known: set<string>, inside: bool) returns (problems: seq<FieldProblem>)
    ensures problems == [] <==> names <= known
  {
    problems := [];
    assert names <= known <==> names - known == {} by {
      if !(names <= known) {
        var name :| name in names && name !in known;
        assert name in names - known;
      }
    }
    var rest := names - known;
    while rest != {}
      invariant rest <= names - known
      invariant problems == [] <==> rest == names - known
      decreases rest
    {
      var name :| name in rest;
      rest := rest - {name};
      problems := problems + [if inside then MissingField(name) else UnknownField(name)];
    }
  }

  method RowProblemsOnWire(w: WireRow) returns (problems: seq<FieldProblem>)
    ensures problems == [] <==> RowReadable(w)
  {
    hide Blank;
    problems := NamesOutside(w.fields, ROW_FIELDS, false);
    if !HasText(w, "id", w.row.id) {
      problems := problems + [MissingField("id")];
    }
    if !HasText(w, "section", w.row.section) {
      problems := problems + [MissingField("section")];
    }
    if !HasText(w, "quote", w.row.quote) {
      problems := problems + [MissingField("quote")];
    }
    if "status" !in w.fields {
      problems := problems + [MissingField("status")];
    } else if w.row.status.Confirmed? {
      if w.row.statusEvidence.None? || w.row.statusEvidence.value.problems > 0 {
        problems := problems + [UnprovedReading];
      }
      if !w.row.formOnlyMark {
        problems := problems + [StrengthNotStated];
      }
    }
  }

  /** Why a message is not a claim map phase. */
  method CheckPayload(payload: MapPhase) returns (problems: seq<FieldProblem>)
    ensures problems == [] <==> PhaseReadable(payload)
  {
    hide RowReadable;
    problems := NamesOutside(payload.fields, PAYLOAD_FIELDS, false);
    var missing := NamesOutside(PAYLOAD_FIELDS, payload.fields, true);
    problems := problems + missing;
    if payload.phase != CLAIM_MAP_PHASE {
      problems := problems + [OtherPhase];
    }
    if payload.rows.NotAList? {
      return problems + [RowsNotListed];
    }
    var items := payload.rows.items;
    ghost var before := problems;
    for i := 0 to |items|
      invariant problems == [] <==>
                before == [] && forall j :: 0 <= j < i ==> items[j].Some? && RowReadable(items[j].value)
    {
      match items[i] {
        case None => problems := problems + [RowNotAnObject];
        case Some(w) =>
          var more := RowProblemsOnWire(w);
          problems := problems + more;
      }
    }
  }

  lemma PublishedFieldsAreKnown(row: ClaimRow, hex: Digest -> string)
    ensures FieldsOf(row, hex) <= ROW_FIELDS
    ensures {"id", "section", "quote", "status"} <= FieldsOf(row, hex)
  {
  }

  /** An admissible row is always readable once published, and once it is terminal with a basis
      the gate has nothing against it exactly when its form counts as it was recorded. */
  lemma AdmissibleRowsArePublishable(row: ClaimRow, sections: set<string>, contract: Option<set<string>>,
                                     hex: Digest -> string)
    requires RowAdmissible(row, sections, contract) && forall s :: s in sections ==> !Blank(s)
    ensures RowReadable(WireRowOf(row, hex))
    ensures IsTerminal(row.CountingStatus(hex)) && !Blank(row.statusAttestation.value.basis) ==>
              (RowRefusals(Publish(row, hex), hex) == [] <==> row.CountingForm(hex) == row.recordedForm)
  {
    hide QuoteHash, Blank, Ledger.CanonicalNumber, Material, FormText, RowRefusals, FieldsOf;
    GatePassesExactly(row, hex);
    PublishedFieldsAreKnown(row, hex);
    var n := Ledger.CanonicalNumber("M", row.id).value;
    Ledger.OneSpelling("M", row.id, n);
    assert row.id[0] == 'M';
    NotBlank(row.id);
  }

  /** The rows that block, with their reasons; none exactly when every row is terminal. */
  method BlockingRows(rows: seq<ClaimRow>, hex: Digest -> string) returns (reasons: seq<Blocked>)
    ensures reasons == [] <==> forall i :: 0 <= i < |rows| ==> IsTerminal(rows[i].CountingStatus(hex))
  {
    reasons := [];
    for i := 0 to |rows|
      invariant reasons == [] <==> forall j :: 0 <= j < i ==> IsTerminal(rows[j].CountingStatus(hex))
    {
      BlocksExactlyUntilTerminal(rows[i], hex);
      var reason := rows[i].BlockingReason(hex);
      if reason.Some? {
        reasons := reasons + [reason.value];
      }
    }
  }
}
