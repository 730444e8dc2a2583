/** The blind reader's report: a validator whose acceptance makes the table a partition of the
    findings, and an extraction that the publisher then accepts. */
module BlindReport {
  import opened Wrappers
  import opened Text
  import opened Sequences
  import opened Snapshot
  import opened Evidence

  // --- the answer as it was parsed --------------------------------------------------------

  /** One finding; its text may have arrived as something other than text. */
  datatype Finding = Finding(section: string, category: string, text: Option<string>, anchor: string)

  /** One row of the table; its indexes may have arrived as something other than whole numbers. */
  datatype Row = Row(section: string, indexes: Option<seq<int>>)

  datatype Question = Question(text: Option<string>, answerListed: bool)

  /** A list in the answer; an element that is not an object with exactly the fields of its
      schema is `None`. */
  datatype Listed<+T> = Absent | NotAList | Elements(items: seq<Option<T>>)

  datatype Report = Report(
    unknownFields: nat,
    texts: map<string, Option<string>>,
    findings: Listed<Finding>,
    table: Listed<Row>,
    questions: Listed<Question>)

  const FREE_VALVE := "что_ещё_заметил"

  /** What the report is held against: derived from the contract and the artefact. */
  datatype Derivation = Derivation(
    textSections: seq<string>,
    floors: map<string, nat>,
    ceilings: map<string, nat>,
    categories: set<string>,
    sectionIds: seq<string>,
    publicItems: set<string>)

  /** The form C-N without leading zeros. */
  predicate CanonicalAnchor(anchor: string) {
    && |anchor| >= 3 && anchor[..2] == "C-"
    && AllDigits(anchor[2..]) && (anchor[2] == '0' ==> |anchor| == 3)
  }

  predicate IsText(t: Option<string>) {
    t.Some? && !Blank(t.value)
  }

  /** What makes two findings one: category, section and text, as they are compared. */
  function KeyOf(f: Finding, lower: string -> string): (string, string, string) {
    (lower(Strip(f.category)), Strip(f.section), lower(Normalized(if f.text.Some? then f.text.value else "")))
  }

  // --- what the validator demands -----------------------------------------------------------

  predicate TextHolds(name: string, texts: map<string, Option<string>>, d: Derivation) {
    && name in texts && texts[name].Some?
    && var text := texts[name].value;
    && (name != FREE_VALVE ==> !Blank(text))
    && (name in d.floors ==> |Words(text)| >= d.floors[name])
    && (name in d.ceilings ==> |Words(text)| <= d.ceilings[name])
  }

  predicate FindingHolds(f: Finding, d: Derivation) {
    && f.section in d.sectionIds && f.category in d.categories && IsText(f.text)
    && CanonicalAnchor(f.anchor) && f.anchor in d.publicItems
  }

  predicate AllPresent<T>(items: seq<Option<T>>) {
    forall i :: 0 <= i < |items| ==> items[i].Some?
  }

  function Present<T>(items: seq<Option<T>>): (values: seq<T>)
    ensures AllPresent(items) ==> |values| == |items| && forall i :: 0 <= i < |items| ==> values[i] == items[i].value
  {
    if items == [] then []
    else
      var last := items[|items| - 1];
      Present(items[..|items| - 1]) + if last.Some? then [last.value] else []
  }

  function Keys(findings: seq<Finding>, lower: string -> string): (keys: seq<(string, string, string)>)
    ensures |keys| == |findings| && forall i :: 0 <= i < |findings| ==> keys[i] == KeyOf(findings[i], lower)
  {
    seq(|findings|, i requires 0 <= i < |findings| => KeyOf(findings[i], lower))
  }

  predicate FindingsHold(findings: seq<Finding>, d: Derivation, lower: string -> string) {
    && (forall i :: 0 <= i < |findings| ==> FindingHolds(findings[i], d))
    && NoDuplicates(Keys(findings, lower))
  }

  /** All indexes, row after row. */
  function Referenced(rows: seq<Row>): seq<int> {
    if rows == [] then []
    else
      var last := rows[|rows| - 1].indexes;
      Referenced(rows[..|rows| - 1]) + if last.Some? then last.value else []
  }

  function Reported(rows: seq<Row>): (sections: seq<string>)
    ensures |sections| == |rows| && forall i :: 0 <= i < |rows| ==> sections[i] == rows[i].section
  {
    seq(|rows|, i requires 0 <= i < |rows| => rows[i].section)
  }

  /** Every index of the row is that of a finding of its own section. */
  predicate RowHolds(row: Row, findings: seq<Finding>) {
    row.indexes.Some? &&
    forall k :: k in row.indexes.value ==> 0 <= k < |findings| && findings[k].section == row.section
  }

  ghost predicate TableHolds(rows: seq<Row>, findings: seq<Finding>, sectionIds: seq<string>) {
    && (forall i :: 0 <= i < |rows| ==> RowHolds(rows[i], findings))
    && (forall s :: s in sectionIds <==> s in Reported(rows)) && NoDuplicates(Reported(rows))
    && (forall k :: 0 <= k < |findings| ==> k in Referenced(rows)) && NoDuplicates(Referenced(rows))
  }

  ghost predicate Valid(r: Report, d: Derivation, lower: string -> string) {
    && r.unknownFields == 0
    && (forall i :: 0 <= i < |d.textSections| ==> TextHolds(d.textSections[i], r.texts, d))
    && r.findings.Elements? && AllPresent(r.findings.items) && FindingsHold(Present(r.findings.items), d, lower)
    && r.table.Elements? && AllPresent(r.table.items)
    && TableHolds(Present(r.table.items), Present(r.findings.items), d.sectionIds)
    && r.questions.Elements? && AllPresent(r.questions.items)
    && forall q :: q in Present(r.questions.items) ==> IsText(q.text) && q.answerListed
  }

  // --- the validator ----------------------------------------------------------------------------

  datatype Reason =
    | UnknownField | MissingSection | NotText | EmptySection | UnderBudget | OverBudget
    | NotArray | NotClosed(position: nat) | NoSuchSection(position: nat) | NoSuchCategory(position: nat)
    | EmptyText(position: nat) | AnchorSpelling(position: nat) | AnchorUnresolved(position: nat) | RepeatedFinding
    | IndexesNotWhole(position: nat) | RepeatedInRow(position: nat)
    | IndexOutside(position: nat) | IndexElsewhere(position: nat)
    | RowMissing | RowUnknown | RowRepeated | Orphaned | ListedTwice
    | AnswerNotListed(position: nat)

  method TextRefusals(texts: map<string, Option<string>>, d: Derivation) returns (reasons: seq<Reason>)
    ensures reasons == [] <==> forall i :: 0 <= i < |d.textSections| ==> TextHolds(d.textSections[i], texts, d)
  {
    hide Blank, Words;
    reasons := [];
    for i := 0 to |d.textSections|
      invariant reasons == [] <==> forall j :: 0 <= j < i ==> TextHolds(d.textSections[j], texts, d)
    {
      var name := d.textSections[i];
      if name !in texts {
        reasons := reasons + [MissingSection];
      } else if texts[name].None? {
        reasons := reasons + [NotText];
      } else {
        var text := texts[name].value;
        if name != FREE_VALVE && Blank(text) {
          reasons := reasons + [EmptySection];
        }
        if name in d.floors && |Words(text)| < d.floors[name] {
          reasons := reasons + [UnderBudget];
        }
        if name in d.ceilings && |Words(text)| > d.ceilings[name] {
          reasons := reasons + [OverBudget];
        }
      }
    }
  }

  function FindingProblems(f: Finding, d: Derivation, position: nat): (reasons: seq<Reason>)
    ensures reasons == [] <==> FindingHolds(f, d)
  {
    (if f.section !in d.sectionIds then [NoSuchSection(position)] else []) +
    (if f.category !in d.categories then [NoSuchCategory(position)] else []) +
    (if !IsText(f.text) then [EmptyText(position)] else []) +
    (if !CanonicalAnchor(f.anchor) then [AnchorSpelling(position)]
     else if f.anchor !in d.publicItems then [AnchorUnresolved(position)] else [])
  }

  lemma NothingPresent<T>()
    ensures AllPresent<T>([]) && Present<T>([]) == []
  {
  }

  lemma PresentOneMore<T>(items: seq<Option<T>>, item: Option<T>)
    ensures AllPresent(items + [item]) <==> AllPresent(items) && item.Some?
    ensures Present(items + [item]) == Present(items) + if item.Some? then [item.value] else []
  {
    var more := items + [item];
    assert more[..|more| - 1] == items;
    if AllPresent(more) {
      assert more[|items|] == item;
      forall i | 0 <= i < |items|
        ensures items[i].Some?
      {
        assert more[i] == items[i];
      }
    }
  }

  method FindingRefusals(items: seq<Option<Finding>>, d: Derivation, lower: string -> string)
    returns (findings: seq<Finding>, ok: bool, reasons: seq<Reason>)
    ensures ok <==> AllPresent(items)
    ensures findings == Present(items)
    ensures reasons == [] <==> AllPresent(items) && FindingsHold(Present(items), d, lower)
  {
    hide FindingHolds, NoDuplicates, Keys, Present, AllPresent;
    findings, ok, reasons := [], true, [];
    NothingPresent<Finding>();
    for i := 0 to |items|
      invariant ok <==> AllPresent(items[..i])
      invariant findings == Present(items[..i])
      invariant reasons == [] <==>
                AllPresent(items[..i]) && forall j :: 0 <= j < |findings| ==> FindingHolds(findings[j], d)
    {
      assert items[..i + 1] == items[..i] + [items[i]];
      PresentOneMore(items[..i], items[i]);
      match items[i] {
        case None =>
          ok := false;
          reasons := reasons + [NotClosed(i)];
        case Some(f) =>
          findings := findings + [f];
          reasons := reasons + FindingProblems(f, d, i);
      }
    }
    assert items[..|items|] == items;
    if !NoDuplicates(Keys(findings, lower)) {
      reasons := reasons + [RepeatedFinding];
    }
  }

  lemma RowHoldsByPosition(row: Row, findings: seq<Finding>)
    requires row.indexes.Some?
    ensures RowHolds(row, findings) <==>
            forall j :: 0 <= j < |row.indexes.value| ==>
              0 <= row.indexes.value[j] < |findings| && findings[row.indexes.value[j]].section == row.section
  {
    var indexes := row.indexes.value;
    forall k | k in indexes && !RowHolds(row, findings)
      ensures exists j :: 0 <= j < |indexes| && indexes[j] == k
    {
    }
    forall j | 0 <= j < |indexes|
      ensures indexes[j] in indexes
    {
    }
  }

  method RowProblems(row: Row, findings: seq<Finding>, findingsOk: bool, position: nat) returns (reasons: seq<Reason>)
    requires row.indexes.Some?
    ensures reasons == [] ==> NoDuplicates(row.indexes.value) && (findingsOk ==> RowHolds(row, findings))
    ensures RowHolds(row, findings) && NoDuplicates(row.indexes.value) ==> reasons == []
  {
    var indexes := row.indexes.value;
    RowHoldsByPosition(row, findings);
    reasons := if NoDuplicates(indexes) then [] else [RepeatedInRow(position)];
    if findingsOk {
      for i := 0 to |indexes|
        invariant reasons == [] <==>
                  NoDuplicates(indexes) && forall j :: 0 <= j < i ==>
                    0 <= indexes[j] < |findings| && findings[indexes[j]].section == row.section
      {
        if !(0 <= indexes[i] < |findings|) {
          reasons := reasons + [IndexOutside(position)];
        } else if findings[indexes[i]].section != row.section {
          reasons := reasons + [IndexElsewhere(position)];
        }
      }
    }
  }

  lemma NoDuplicatesInPart<T>(a: seq<T>, b: seq<T>)
    requires NoDuplicates(a + b)
    ensures NoDuplicates(a) && NoDuplicates(b)
  {
    forall i, j | 0 <= i < j < |a|
      ensures a[i] != a[j]
    {
      assert (a + b)[i] == a[i] && (a + b)[j] == a[j];
    }
    forall i, j | 0 <= i < j < |b|
      ensures b[i] != b[j]
    {
      assert (a + b)[|a| + i] == b[i] && (a + b)[|a| + j] == b[j];
    }
  }

  lemma ReferencedOneMore(rows: seq<Row>, row: Row)
    ensures Referenced(rows + [row]) == Referenced(rows) + if row.indexes.Some? then row.indexes.value else []
    ensures Reported(rows + [row]) == Reported(rows) + [row.section]
  {
    assert (rows + [row])[..|rows|] == rows;
  }

  /** The table against the findings: what it names, and that it names each once. */
  method TableRefusals(items: seq<Option<Row>>, findings: seq<Finding>, findingsOk: bool, sectionIds: seq<string>)
    returns (reasons: seq<Reason>)
    ensures findingsOk ==>
              (reasons == [] <==> AllPresent(items) && TableHolds(Present(items), findings, sectionIds))
  {
    hide RowHolds, NoDuplicates, Referenced, Reported, Present, AllPresent;
    reasons := [];
    NothingPresent<Row>();
    var rows: seq<Row>, rowsOk := [], true;
    for i := 0 to |items|
      invariant rows == Present(items[..i]) && (rowsOk ==> AllPresent(items[..i]))
      invariant reasons == [] ==> rowsOk
      invariant findingsOk && reasons == [] ==> forall j :: 0 <= j < |rows| ==> RowHolds(rows[j], findings)
      invariant AllPresent(items[..i]) && (forall j :: 0 <= j < |rows| ==> RowHolds(rows[j], findings))
                && NoDuplicates(Referenced(rows)) ==>
                  reasons == []
    {
      assert items[..i + 1] == items[..i] + [items[i]];
      PresentOneMore(items[..i], items[i]);
      match items[i] {
        case None =>
          rowsOk := false;
          reasons := reasons + [NotClosed(i)];
        case Some(row) =>
          ReferencedOneMore(rows, row);
          WholeRow(rows, row, findings);
          if row.indexes.None? {
            rowsOk := false;
            reasons := reasons + [IndexesNotWhole(i)];
          } else {
            var more := RowProblems(row, findings, findingsOk, i);
            reasons := reasons + more;
          }
          rows := rows + [row];
      }
    }
    assert items[..|items|] == items;
    var closing := ClosingRefusals(rows, |findings|, findingsOk && rowsOk, sectionIds);
    reasons := reasons + closing;
  }

  lemma WholeRow(rows: seq<Row>, row: Row, findings: seq<Finding>)
    ensures RowHolds(row, findings) ==> row.indexes.Some?
    ensures row.indexes.Some? && NoDuplicates(Referenced(rows + [row])) ==>
              NoDuplicates(Referenced(rows)) && NoDuplicates(row.indexes.value)
    ensures row.indexes.None? && NoDuplicates(Referenced(rows + [row])) ==> NoDuplicates(Referenced(rows))
  {
    hide Referenced, NoDuplicates;
    ReferencedOneMore(rows, row);
    if row.indexes.Some? && NoDuplicates(Referenced(rows + [row])) {
      NoDuplicatesInPart(Referenced(rows), row.indexes.value);
    }
    assert Referenced(rows) + [] == Referenced(rows);
  }

  /** One row for every section of the artefact, and one place for every finding. */
  method ClosingRefusals(rows: seq<Row>, count: nat, complete: bool, sectionIds: seq<string>)
    returns (reasons: seq<Reason>)
    ensures reasons == [] <==>
            && (forall s :: s in sectionIds <==> s in Reported(rows)) && NoDuplicates(Reported(rows))
            && (complete ==> (forall k :: 0 <= k < count ==> k in Referenced(rows)) && NoDuplicates(Referenced(rows)))
  {
    hide Referenced, Reported, NoDuplicates;
    var reported, referenced := Reported(rows), Referenced(rows);
    reasons := [];
    if exists i :: 0 <= i < |sectionIds| && sectionIds[i] !in reported {
      reasons := reasons + [RowMissing];
    }
    if exists i :: 0 <= i < |reported| && reported[i] !in sectionIds {
      reasons := reasons + [RowUnknown];
    }
    if !NoDuplicates(reported) {
      reasons := reasons + [RowRepeated];
    }
    if complete {
      if exists k :: 0 <= k < count && k !in referenced {
        reasons := reasons + [Orphaned];
      }
      if !NoDuplicates(referenced) {
        reasons := reasons + [ListedTwice];
      }
    }
  }

  method QuestionRefusals(items: seq<Option<Question>>) returns (reasons: seq<Reason>)
    ensures reasons == [] <==> AllPresent(items) && forall q :: q in Present(items) ==> IsText(q.text) && q.answerListed
  {
    hide IsText, Present, AllPresent;
    reasons := [];
    NothingPresent<Question>();
    for i := 0 to |items|
      invariant reasons == [] <==>
                AllPresent(items[..i]) && forall q :: q in Present(items[..i]) ==> IsText(q.text) && q.answerListed
    {
      assert items[..i + 1] == items[..i] + [items[i]];
      PresentOneMore(items[..i], items[i]);
      match items[i] {
        case None => reasons := reasons + [NotClosed(i)];
        case Some(q) =>
          if !IsText(q.text) {
            reasons := reasons + [EmptyText(i)];
          }
          if !q.answerListed {
            reasons := reasons + [AnswerNotListed(i)];
          }
      }
    }
    assert items[..|items|] == items;
  }

  /** Every way in which the answer is not a report of this derivation. */
  method ReportRefusals(r: Report, d: Derivation, lower: string -> string) returns (reasons: seq<Reason>)
    ensures reasons == [] <==> Valid(r, d, lower)
  {
    hide TextHolds, FindingsHold, TableHolds, AllPresent, IsText;
    reasons := if r.unknownFields > 0 then [UnknownField] else [];
    var texts := TextRefusals(r.texts, d);
    reasons := reasons + texts;
    var findings: seq<Finding>, findingsOk := [], false;
    match r.findings {
      case Absent => reasons := reasons + [MissingSection];
      case NotAList => reasons := reasons + [NotArray];
      case Elements(items) =>
        var more;
        findings, findingsOk, more := FindingRefusals(items, d, lower);
        reasons := reasons + more;
    }
    match r.table {
      case Absent => reasons := reasons + [MissingSection];
      case NotAList => reasons := reasons + [NotArray];
      case Elements(items) =>
        var more := TableRefusals(items, findings, findingsOk, d.sectionIds);
        reasons := reasons + more;
    }
    match r.questions {
      case Absent => reasons := reasons + [MissingSection];
      case NotAList => reasons := reasons + [NotArray];
      case Elements(items) =>
        var more := QuestionRefusals(items);
        reasons := reasons + more;
    }
  }

  // --- what acceptance means: a partition ---------------------------------------------------

  function Sizes(rows: seq<Row>): nat {
    if rows == [] then 0
    else
      var last := rows[|rows| - 1].indexes;
      Sizes(rows[..|rows| - 1]) + if last.Some? then |last.value| else 0
  }

  lemma {:induction false} SizesAreLengths(rows: seq<Row>)
    ensures Sizes(rows) == |Referenced(rows)|
  {
    if rows != [] {
      SizesAreLengths(rows[..|rows| - 1]);
    }
  }

  /** A list without repetitions of exactly the numbers below n has n elements. */
  lemma {:induction false} CountOfAll(s: seq<int>, n: nat)
    requires NoDuplicates(s) && forall k :: k in s <==> 0 <= k < n
    ensures |s| == n
  {
    if s == [] {
      assert 0 !in s;
    } else {
      var x := s[0];
      assert x in s && 0 <= x < n;
      var last := n - 1;
      assert last in s;
      var i :| 0 <= i < |s| && s[i] == last;
      var rest := s[..i] + s[i + 1..];
      assert s == s[..i] + [n - 1] + s[i + 1..];
      WithoutOne(s[..i], n - 1, s[i + 1..]);
      CountOfAll(rest, n - 1);
    }
  }

  lemma WithoutOne(a: seq<int>, x: int, b: seq<int>)
    requires NoDuplicates(a + [x] + b)
    ensures NoDuplicates(a + b)
    ensures forall k :: k in a + b <==> k in a + [x] + b && k != x
  {
    var s, rest := a + [x] + b, a + b;
    forall i, j | 0 <= i < j < |rest|
      ensures rest[i] != rest[j]
    {
      assert rest[i] == s[if i < |a| then i else i + 1] && rest[j] == s[if j < |a| then j else j + 1];
    }
    forall i | 0 <= i < |rest|
      ensures rest[i] != x
    {
      assert rest[i] == s[if i < |a| then i else i + 1] && s[|a|] == x;
    }
  }

  /** In which row a position of the flattened indexes lies. */
  lemma {:induction false} RowOf(rows: seq<Row>, k: int) returns (i: nat)
    requires k in Referenced(rows)
    ensures i < |rows| && rows[i].indexes.Some? && k in rows[i].indexes.value
  {
    var last := |rows| - 1;
    if rows[last].indexes.Some? && k in rows[last].indexes.value {
      i := last;
    } else {
      i := RowOf(rows[..last], k);
    }
  }

  /** Rows and sections correspond one to one, every finding is listed in exactly one row, that of
      its own section, and the sizes of the rows add up to the number of findings. */
  ghost predicate IsPartition(rows: seq<Row>, findings: seq<Finding>, sectionIds: seq<string>) {
    && (forall s :: s in sectionIds ==> exists i :: 0 <= i < |rows| && rows[i].section == s)
    && (forall i :: 0 <= i < |rows| ==> rows[i].section in sectionIds && rows[i].indexes.Some?)
    && (forall i, j :: 0 <= i < |rows| && 0 <= j < |rows| && rows[i].section == rows[j].section ==> i == j)
    && (forall k, i :: 0 <= i < |rows| && k in rows[i].indexes.value ==>
          0 <= k < |findings| && rows[i].section == findings[k].section)
    && (forall k, i :: 0 <= k < |findings| && 0 <= i < |rows| && rows[i].section == findings[k].section ==>
          k in rows[i].indexes.value)
    && Sizes(rows) == |findings|
  }

  lemma TablesArePartitions(rows: seq<Row>, findings: seq<Finding>, sectionIds: seq<string>)
    requires TableHolds(rows, findings, sectionIds)
    ensures IsPartition(rows, findings, sectionIds)
  {
    hide Referenced, Reported, Sizes, NoDuplicates;
    SizesAreLengths(rows);
    RowsBySection(rows, sectionIds);
    forall k
      ensures k in Referenced(rows) <==> 0 <= k < |findings|
    {
      if k in Referenced(rows) {
        var i := RowOf(rows, k);
        assert RowHolds(rows[i], findings);
      }
    }
    CountOfAll(Referenced(rows), |findings|);
    forall k, i | 0 <= k < |findings| && 0 <= i < |rows| && rows[i].section == findings[k].section
      ensures k in rows[i].indexes.value
    {
      var j := RowOf(rows, k);
      assert RowHolds(rows[j], findings);
      assert rows[j].section == rows[i].section;
    }
  }

  /** Acceptance makes the table a partition of the findings over the sections of the artefact. */
  lemma AcceptedReportsArePartitions(r: Report, d: Derivation, lower: string -> string)
    requires Valid(r, d, lower)
    ensures IsPartition(Present(r.table.items), Present(r.findings.items), d.sectionIds)
  {
    hide FindingsHold, TextHolds, TableHolds, IsPartition, IsText;
    TablesArePartitions(Present(r.table.items), Present(r.findings.items), d.sectionIds);
  }

  lemma RowsBySection(rows: seq<Row>, sectionIds: seq<string>)
    requires (forall s :: s in sectionIds <==> s in Reported(rows)) && NoDuplicates(Reported(rows))
    ensures forall s :: s in sectionIds ==> exists i :: 0 <= i < |rows| && rows[i].section == s
    ensures forall i :: 0 <= i < |rows| ==> rows[i].section in sectionIds
    ensures forall i, j :: 0 <= i < |rows| && 0 <= j < |rows| && rows[i].section == rows[j].section ==> i == j
  {
    var reported := Reported(rows);
    forall s | s in sectionIds
      ensures exists i :: 0 <= i < |rows| && rows[i].section == s
    {
      var i :| 0 <= i < |reported| && reported[i] == s;
      assert rows[i].section == s;
    }
    forall i | 0 <= i < |rows|
      ensures rows[i].section in sectionIds
    {
      assert reported[i] in reported;
    }
    forall i, j | 0 <= i < j < |rows|
      ensures rows[i].section != rows[j].section
    {
      assert reported[i] != reported[j];
    }
  }

  // --- extraction and publication --------------------------------------------------------------

  /** The identity that dispositions are looked up by, the contract included. */
  function FindingIdentity(category: string, section: string, text: string, contractSha: string,
                           lower: string -> string): Digest
  {
    Sha256OfText(
      lower(Strip(category)) + "|" + Strip(section) + "|" + lower(Normalized(text)) + "|" + Strip(contractSha))
  }

  function ItemOf(f: Finding, version: int, contractSha: string, lower: string -> string): Item
    requires f.text.Some?
  {
    Item(FindingIdentity(f.category, f.section, f.text.value, contractSha, lower),
         f.section, f.category, f.text.value, f.anchor, version, contractSha)
  }

  /** Extraction is called on accepted reports only. */
  function ExtractFindings(findings: seq<Finding>, version: int, contractSha: string, lower: string -> string)
    : (items: seq<Item>)
    requires forall i :: 0 <= i < |findings| ==> findings[i].text.Some?
    ensures |items| == |findings|
    ensures forall i :: 0 <= i < |findings| ==> items[i] == ItemOf(findings[i], version, contractSha, lower)
  {
    seq(|findings|, i requires 0 <= i < |findings| => ItemOf(findings[i], version, contractSha, lower))
  }

  predicate ItemHolds(item: Item, lower: string -> string) {
    && !Blank(item.section) && !Blank(item.category) && !Blank(item.text) && !Blank(item.anchor)
    && item.contractVersion != 0 && !Blank(item.contractSha)
    && item.id == FindingIdentity(item.category, item.section, item.text, item.contractSha, lower)
    && CanonicalAnchor(item.anchor)
  }

  function Ids(items: seq<Item>): (ids: seq<Digest>)
    ensures |ids| == |items| && forall i :: 0 <= i < |items| ==> ids[i] == items[i].id
  {
    seq(|items|, i requires 0 <= i < |items| => items[i].id)
  }

  datatype PublishProblem =
    | ItemProblem(position: nat)
    | IdTwice
    | NoAnchors
    | AnchorOutside(position: nat)
    | RunNotNamed
    | NoFingerprint

  /** What the publisher sends: well-formed items under different identities, whose anchors resolve
      into the declared list, of a run that is named and fingerprinted. */
  predicate Publishable(items: seq<Item>, publicItems: set<string>, recordId: string, readerDigest: string,
                        lower: string -> string)
  {
    && !Blank(recordId) && !Blank(readerDigest) && publicItems != {}
    && (forall i :: 0 <= i < |items| ==> ItemHolds(items[i], lower) && items[i].anchor in publicItems)
    && NoDuplicates(Ids(items))
  }

  /** Why the publisher does not send the phase. */
  method PublishRefusals(items: seq<Item>, publicItems: set<string>, recordId: string, readerDigest: string,
                         lower: string -> string)
    returns (problems: seq<PublishProblem>)
    ensures problems == [] <==> Publishable(items, publicItems, recordId, readerDigest, lower)
  {
    hide ItemHolds, Blank, NoDuplicates;
    if Blank(recordId) {
      return [RunNotNamed];
    }
    if Blank(readerDigest) {
      return [NoFingerprint];
    }
    problems := if NoDuplicates(Ids(items)) then [] else [IdTwice];
    if publicItems == {} {
      problems := problems + [NoAnchors];
    }
    for i := 0 to |items|
      invariant problems == [] <==>
                NoDuplicates(Ids(items)) && publicItems != {}
                && forall j :: 0 <= j < i ==> ItemHolds(items[j], lower) && items[j].anchor in publicItems
    {
      if !ItemHolds(items[i], lower) {
        problems := problems + [ItemProblem(i)];
      }
      if items[i].anchor !in publicItems {
        problems := problems + [AnchorOutside(i)];
      }
    }
  }

  /** The fixed table of what a finding may be about. */
  const CATEGORY_TABLE := {
    "НЕПОНЯТНО", "ПЕРЕГРУЖЕНО", "ТЕРЯЕТСЯ НИТЬ", "ВОПРОС БЕЗ ОТВЕТА", "НЕ УБЕЖДАЕТ", "ПРОВИСАЕТ",
    "ВЫХОД ЗА РАМКИ", "НЕЕСТЕСТВЕННО"
  }

  /** A section as the artefact numbers it: S, a dash and digits. */
  predicate SectionName(s: string) {
    |s| >= 3 && s[..2] == "S-" && AllDigits(s[2..])
  }

  /** What the artefact and the contract yield: numbered sections, and categories of the table. */
  predicate FromSources(d: Derivation) {
    d.categories <= CATEGORY_TABLE && forall s :: s in d.sectionIds ==> SectionName(s)
  }

  /** Lower-casing makes no bar out of anything else. */
  ghost predicate MakesNoBars(lower: string -> string) {
    forall s: string :: '|' in lower(s) ==> '|' in s
  }

  /** The names of the derivation are filled in and contain no separator of the identity. */
  predicate Separable(d: Derivation, lower: string -> string) {
    && (forall c :: c in d.categories ==> !Blank(c) && '|' !in lower(Strip(c)))
    && (forall s :: s in d.sectionIds ==> !Blank(s) && '|' !in Strip(s))
  }

  lemma StripHasNoMore(s: string, c: char)
    ensures c in Strip(s) ==> c in s
  {
    hide Blank, StripLeft, StripRight;
    var left := StripLeft(s);
    var text := StripRight(left);
    assert text <= left && left == s[|s| - |left|..];
    if c in text {
      assert c in left;
    }
  }

  lemma TableNamesAreFilled(name: string)
    requires name in CATEGORY_TABLE
    ensures name != [] && !IsSpace(name[0]) && '|' !in name
  {
  }

  /** Derivations are separable: neither a number nor a name of the table holds a separator. */
  lemma SourcesAreSeparable(d: Derivation, lower: string -> string)
    requires FromSources(d) && MakesNoBars(lower)
    ensures Separable(d, lower)
  {
    hide Strip, Blank;
    forall c | c in d.categories
      ensures !Blank(c) && '|' !in lower(Strip(c))
    {
      TableNamesAreFilled(c);
      NotBlank(c);
      StripHasNoMore(c, '|');
    }
    forall s | s in d.sectionIds
      ensures !Blank(s) && '|' !in Strip(s)
    {
      assert s[0] == s[..2][0] == 'S' && s[1] == s[..2][1] == '-';
      NotBlank(s);
      StripHasNoMore(s, '|');
      forall i | 0 <= i < |s|
        ensures s[i] != '|'
      {
        assert i >= 2 ==> s[i] == s[2..][i - 2];
      }
    }
  }

  lemma LastPartsAgree(a: string, b: string, end: string)
    requires a + end == b + end
    ensures a == b
  {
    assert |a + end| == |a| + |end| && |b + end| == |b| + |end|;
    assert (a + end)[..|a|] == a && (b + end)[..|b|] == b;
  }

  /** Different findings get different identities. */
  lemma IdentitiesDiffer(f: Finding, g: Finding, contractSha: string, d: Derivation, lower: string -> string)
    requires Separable(d, lower) && FindingHolds(f, d) && FindingHolds(g, d)
    requires FindingIdentity(f.category, f.section, f.text.value, contractSha, lower)
             == FindingIdentity(g.category, g.section, g.text.value, contractSha, lower)
    ensures KeyOf(f, lower) == KeyOf(g, lower)
  {
    hide Strip, Normalized, Blank, CanonicalAnchor;
    var (c1, s1, t1) := KeyOf(f, lower);
    var (c2, s2, t2) := KeyOf(g, lower);
    var end := "|" + Strip(contractSha);
    assert c1 + "|" + s1 + "|" + t1 + "|" + Strip(contractSha) == (c1 + "|" + s1 + "|" + t1) + end;
    assert c2 + "|" + s2 + "|" + t2 + "|" + Strip(contractSha) == (c2 + "|" + s2 + "|" + t2) + end;
    LastPartsAgree(c1 + "|" + s1 + "|" + t1, c2 + "|" + s2 + "|" + t2, end);
    assert c1 + "|" + s1 + "|" + t1 == c1 + "|" + (s1 + "|" + t1);
    assert c2 + "|" + s2 + "|" + t2 == c2 + "|" + (s2 + "|" + t2);
    FirstBarDecides(c1, s1 + "|" + t1, c2, s2 + "|" + t2);
    FirstBarDecides(s1, t1, s2, t2);
  }

  /** Findings with one key are one finding: they get one identity under any contract. */
  lemma OneKeyOneIdentity(f: Finding, g: Finding, contractSha: string, lower: string -> string)
    requires f.text.Some? && g.text.Some? && KeyOf(f, lower) == KeyOf(g, lower)
    ensures FindingIdentity(f.category, f.section, f.text.value, contractSha, lower)
            == FindingIdentity(g.category, g.section, g.text.value, contractSha, lower)
  {
    hide Strip, Normalized;
  }

  lemma AnchorsAreNotBlank(anchor: string)
    requires CanonicalAnchor(anchor)
    ensures !Blank(anchor)
  {
    assert anchor[0] == anchor[..2][0] == 'C';
    NotBlank(anchor);
  }

  /** An accepted report always publishes: the extracted items have distinct identities and pass
      every check of the publisher, exactly when the run is named, the anchors are declared, and
      the contract they were read under has a version other than zero and a fingerprint. */
  lemma AcceptedReportsPublishExactly(r: Report, d: Derivation, lower: string -> string, version: int,
                                      contractSha: string, recordId: string, readerDigest: string)
    requires Valid(r, d, lower) && FromSources(d) && MakesNoBars(lower)
    ensures forall i :: 0 <= i < |Present(r.findings.items)| ==> Present(r.findings.items)[i].text.Some?
    ensures var items := ExtractFindings(Present(r.findings.items), version, contractSha, lower);
            && NoDuplicates(Ids(items))
            && (Publishable(items, d.publicItems, recordId, readerDigest, lower) <==>
                && !Blank(recordId) && !Blank(readerDigest) && d.publicItems != {}
                && (items == [] || (version != 0 && !Blank(contractSha))))
  {
    hide TableHolds, TextHolds, AllPresent, Present, NoDuplicates, FindingHolds, Separable, Blank, KeyOf;
    hide CanonicalAnchor;
    SourcesAreSeparable(d, lower);
    var findings := Present(r.findings.items);
    forall i | 0 <= i < |findings|
      ensures IsText(findings[i].text)
    {
      HoldsMeansText(findings[i], d);
    }
    var items := ExtractFindings(findings, version, contractSha, lower);
    IdsDiffer(findings, contractSha, version, d, lower);
    forall i | 0 <= i < |items|
      ensures ItemHolds(items[i], lower) <==> version != 0 && !Blank(contractSha)
      ensures items[i].anchor in d.publicItems
    {
      ExtractedHolds(findings[i], version, contractSha, d, lower);
    }
    if items != [] {
      assert ItemHolds(items[0], lower) <==> version != 0 && !Blank(contractSha);
    }
  }

  lemma HoldsMeansText(f: Finding, d: Derivation)
    requires FindingHolds(f, d)
    ensures IsText(f.text)
  {
  }

  lemma ExtractedHolds(f: Finding, version: int, contractSha: string, d: Derivation, lower: string -> string)
    requires FindingHolds(f, d) && Separable(d, lower)
    ensures var item := ItemOf(f, version, contractSha, lower);
            (ItemHolds(item, lower) <==> version != 0 && !Blank(contractSha)) && item.anchor in d.publicItems
  {
    hide Blank, Strip, Normalized, CanonicalAnchor;
    AnchorsAreNotBlank(f.anchor);
  }

  lemma IdsDiffer(findings: seq<Finding>, contractSha: string, version: int, d: Derivation, lower: string -> string)
    requires FindingsHold(findings, d, lower) && Separable(d, lower)
    requires forall i :: 0 <= i < |findings| ==> findings[i].text.Some?
    ensures NoDuplicates(Ids(ExtractFindings(findings, version, contractSha, lower)))
  {
    hide FindingHolds, Separable, KeyOf, FindingIdentity;
    var ids := Ids(ExtractFindings(findings, version, contractSha, lower));
    forall i, j | 0 <= i < j < |ids|
      ensures ids[i] != ids[j]
    {
      assert Keys(findings, lower)[i] != Keys(findings, lower)[j];
      if ids[i] == ids[j] {
        IdentitiesDiffer(findings[i], findings[j], contractSha, d, lower);
      }
    }
  }
}
