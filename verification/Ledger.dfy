/** Permanent identifiers: one spelling for a number, and a table that never takes one back. */
module Ledger {
  import opened Wrappers
  import opened Text

  // --- spelling ----------------------------------------------------------------------

  predicate IsCapital(c: char) {
    'A' <= c <= 'Z'
  }

  /** A number as it may be spelled: digits, and no zero in front. */
  predicate CanonicalKey(s: string) {
    |s| > 0 && AllDigits(s) && s[0] != '0'
  }

  /** How many capital letters the text begins with. */
  function Capitals(s: string): (k: nat)
    ensures k <= |s| && (forall i :: 0 <= i < k ==> IsCapital(s[i])) && (k < |s| ==> !IsCapital(s[k]))
  {
    if s == [] || !IsCapital(s[0]) then 0 else 1 + Capitals(s[1..])
  }

  function CanonicalNumber(prefix: string, identifier: string): Option<nat> {
    var k := Capitals(identifier);
    if k == 0 || k == |identifier| || identifier[k] != '-' || !CanonicalKey(identifier[k + 1..]) then None
    else if identifier[..k] != prefix then None
    else Some(Value(identifier[k + 1..]))
  }

  /** An identifier is accepted exactly in its one spelling. */
  lemma OneSpelling(prefix: string, identifier: string, n: nat)
    ensures CanonicalNumber(prefix, identifier) == Some(n) <==>
            && n > 0 && prefix != [] && (forall c :: c in prefix ==> IsCapital(c))
            && identifier == prefix + "-" + Digits(n)
  {
    if CanonicalNumber(prefix, identifier) == Some(n) {
      var k := Capitals(identifier);
      PositiveValue(identifier[k + 1..]);
      DigitsOfValue(identifier[k + 1..]);
      assert identifier == identifier[..k] + "-" + identifier[k + 1..];
      assert forall i :: 0 <= i < k ==> prefix[i] == identifier[i];
    }
    if && n > 0 && prefix != [] && (forall c :: c in prefix ==> IsCapital(c))
       && identifier == prefix + "-" + Digits(n) {
      forall i | 0 <= i < |prefix|
        ensures IsCapital(identifier[i])
      {
        assert identifier[i] == prefix[i] && prefix[i] in prefix;
      }
      assert identifier[|prefix|] == '-' && !IsCapital('-');
      assert Capitals(identifier) == |prefix|;
      assert identifier[|prefix| + 1..] == Digits(n) && identifier[..|prefix|] == prefix;
      ValueOfDigits(n);
    }
  }

  /** A whole number as it is written out; only positive ones are canonical keys. */
  function Spell(n: int): string {
    if n >= 0 then Digits(n) else "-" + Digits(-n)
  }

  lemma SpellIsCanonical(n: int)
    ensures CanonicalKey(Spell(n)) <==> n > 0
    ensures n > 0 ==> Value(Spell(n)) == n
  {
    if n > 0 {
      ValueOfDigits(n);
    } else if n == 0 {
      assert Digits(0) == ['0'];
    } else {
      assert Spell(n)[0] == '-' && !IsDigit('-');
    }
  }

  lemma SpellIsInjective(m: int, n: int)
    requires Spell(m) == Spell(n)
    ensures m == n
  {
    hide Digits, Value;
    if m >= 0 && n >= 0 {
      ValueOfDigits(m);
      ValueOfDigits(n);
    } else if m < 0 && n < 0 {
      assert Spell(m)[1..] == Digits(-m) && Spell(n)[1..] == Digits(-n);
      ValueOfDigits(-m);
      ValueOfDigits(-n);
    }
  }

  // --- the table -----------------------------------------------------------------------

  datatype IdEntry = IdEntry(introducedIn: int, retiredIn: Option<int>, about: string)

  datatype Table = Table(entries: map<int, IdEntry>, lastVersion: int)

  const EMPTY := Table(map[], 0)

  datatype Refusal = VersionDoesNotGrow | NumberRetired(number: int)

  predicate IsRetired(t: Table, n: int) {
    n in t.entries && t.entries[n].retiredIn.Some?
  }

  predicate IsLive(t: Table, n: int) {
    n in t.entries && t.entries[n].retiredIn.None?
  }

  predicate Accepts(t: Table, version: int, items: map<int, string>) {
    version > t.lastVersion && forall n :: n in items ==> !IsRetired(t, n)
  }

  /** What the table becomes: the items of the version are live, everything else retires. */
  function Registered(t: Table, version: int, items: map<int, string>): Table {
    Table(
      map n | n in t.entries.Keys + items.Keys ::
        if n in items then IdEntry(if n in t.entries then t.entries[n].introducedIn else version, None, items[n])
        else if t.entries[n].retiredIn.None? then t.entries[n].(retiredIn := Some(version))
        else t.entries[n],
      version)
  }

  /** Number by number: what the version names lives on under its words of today, what lived and is not
      named retires in this version, what was retired stays as it was, and nothing else is there. */
  predicate Registers(before: Table, after: Table, version: int, items: map<int, string>) {
    && after.lastVersion == version
    && after.entries.Keys == before.entries.Keys + items.Keys
    && forall n :: n in after.entries ==>
         && (n in items ==> after.entries[n].retiredIn.None? && after.entries[n].about == items[n])
         && (n !in before.entries ==> after.entries[n].introducedIn == version)
         && (n in before.entries ==> after.entries[n].introducedIn == before.entries[n].introducedIn)
         && (n !in items ==> after.entries[n].about == before.entries[n].about)
         && (n !in items && IsLive(before, n) ==> after.entries[n].retiredIn == Some(version))
         && (n !in items && IsRetired(before, n) ==> after.entries[n] == before.entries[n])
  }

  function Issued(entries: map<int, IdEntry>, version: int, items: map<int, string>): map<int, IdEntry> {
    map n | n in entries.Keys + items.Keys ::
      if n in items then IdEntry(if n in entries then entries[n].introducedIn else version, None, items[n])
      else entries[n]
  }

  function RetiredBy(entries: map<int, IdEntry>, version: int, items: map<int, string>): map<int, IdEntry> {
    map n | n in entries ::
      if n !in items && entries[n].retiredIn.None? then entries[n].(retiredIn := Some(version)) else entries[n]
  }

  function Attempted(t: Table, version: int, items: map<int, string>): Table {
    if Accepts(t, version, items) then Registered(t, version, items) else t
  }

  lemma NotEmpty(numbers: set<int>)
    requires numbers != {}
    ensures exists n :: n in numbers
  {
    assert (forall n :: n !in numbers) ==> numbers == {};
  }

  /** One more than the largest number ever handed out. */
  predicate IsNext(numbers: set<int>, n: int) {
    && (forall m :: m in numbers ==> m < n)
    && (if numbers == {} then n == 1 else n - 1 in numbers)
  }

  /** The file of the table. The text keys are a second way into it. */
  datatype LedgerFile = LedgerFile(prefix: Option<string>, lastVersion: int, entries: map<string, IdEntry>)

  datatype LoadError = OtherPrefix | BadKeys(keys: seq<string>)

  /** Distinct canonical keys are distinct numbers. */
  lemma CanonicalKeysDiffer(a: string, b: string)
    requires CanonicalKey(a) && CanonicalKey(b) && Value(a) == Value(b)
    ensures a == b
  {
    DigitsOfValue(a);
    DigitsOfValue(b);
  }

  predicate Canonical(f: LedgerFile) {
    forall key :: key in f.entries ==> CanonicalKey(key)
  }

  /** What a canonical file says: no key is overwritten by another. */
  function TableOf(f: LedgerFile): (t: Table)
    requires Canonical(f)
    ensures forall key :: key in f.entries ==> Value(key) in t.entries && t.entries[Value(key)] == f.entries[key]
  {
    assert forall a, b :: a in f.entries && b in f.entries && Value(a) == Value(b) ==> a == b by {
      forall a, b | a in f.entries && b in f.entries && Value(a) == Value(b)
        ensures a == b
      {
        CanonicalKeysDiffer(a, b);
      }
    }
    Table(map key | key in f.entries :: Value(key) := f.entries[key], f.lastVersion)
  }

  predicate Loads(f: LedgerFile, prefix: string) {
    (f.prefix.Some? ==> f.prefix.value == prefix) && Canonical(f)
  }

  function Written(prefix: string, t: Table): LedgerFile {
    assert forall m, n :: m in t.entries && n in t.entries && Spell(m) == Spell(n) ==> m == n by {
      forall m, n | m in t.entries && n in t.entries && Spell(m) == Spell(n)
        ensures m == n
      {
        SpellIsInjective(m, n);
      }
    }
    LedgerFile(Some(prefix), t.lastVersion, map n | n in t.entries :: Spell(n) := t.entries[n])
  }

  class IdLedger {
    const prefix: string
    var entries: map<int, IdEntry>
    var lastVersion: int
    /** The file as it was last written. */
    var file: Option<LedgerFile>

    function Contents(): Table
      reads this
    {
      Table(entries, lastVersion)
    }

    constructor (prefix: string, entries: map<int, IdEntry>, lastVersion: int, file: Option<LedgerFile>)
      ensures this.prefix == prefix && Contents() == Table(entries, lastVersion) && this.file == file
    {
      this.prefix := prefix;
      this.entries := entries;
      this.lastVersion := lastVersion;
      this.file := file;
    }

    /** Why the version cannot be registered; changes nothing. */
    method Refusals(version: int, items: map<int, string>) returns (reasons: seq<Refusal>)
      ensures reasons == [] <==> Accepts(Contents(), version, items)
    {
      reasons := if version <= lastVersion then [VersionDoesNotGrow] else [];
      var rest: set<int> := items.Keys;
      while rest != {}
        invariant rest <= items.Keys
        invariant reasons == [] <==>
                  version > lastVersion && forall n :: n in items && n !in rest ==> !IsRetired(Contents(), n)
        decreases rest
      {
        NotEmpty(rest);
        var number :| number in rest;
        rest := rest - {number};
        if number in entries && entries[number].retiredIn.Some? {
          reasons := reasons + [NumberRetired(number)];
        }
      }
    }

    /** Record the version's numbers, or refuse it outright and change nothing. */
    method Register(version: int, items: map<int, string>, extraProblems: nat) returns (ok: bool)
      modifies this
      ensures ok <==> extraProblems == 0 && Accepts(old(Contents()), version, items)
      ensures Contents() == if ok then Registered(old(Contents()), version, items) else old(Contents())
      ensures ok ==> Registers(old(Contents()), Contents(), version, items)
      ensures file == old(file)
    {
      var reasons := Refusals(version, items);
      if reasons != [] || extraProblems > 0 {
        return false;
      }
      IssueNumbers(version, items);
      RetireOthers(version, items);
      lastVersion := version;
      assert entries == Registered(old(Contents()), version, items).entries;
      return true;
    }

    method IssueNumbers(version: int, items: map<int, string>)
      modifies this`entries
      ensures entries == Issued(old(entries), version, items)
    {
      ghost var before := entries;
      var rest: set<int> := items.Keys;
      while rest != {}
        invariant rest <= items.Keys && entries.Keys == before.Keys + (items.Keys - rest)
        invariant forall n :: n in entries ==>
                    entries[n] == (if n in items && n !in rest
                                   then IdEntry(if n in before then before[n].introducedIn else version, None, items[n])
                                   else before[n])
        decreases rest
      {
        NotEmpty(rest);
        var number :| number in rest;
        rest := rest - {number};
        var introduced := if number in entries then entries[number].introducedIn else version;
        entries := entries[number := IdEntry(introduced, None, items[number])];
      }
      assert forall n: int :: n !in rest;
      assert entries.Keys == Issued(before, version, items).Keys;
      assert forall n :: n in entries ==> entries[n] == Issued(before, version, items)[n];
      assert entries == Issued(before, version, items);
    }

    method RetireOthers(version: int, items: map<int, string>)
      modifies this`entries
      ensures entries == RetiredBy(old(entries), version, items)
    {
      ghost var before := entries;
      var rest: set<int> := entries.Keys;
      while rest != {}
        invariant rest <= entries.Keys && entries.Keys == before.Keys
        invariant forall n :: n in entries ==>
                    entries[n] == (if n !in rest && n !in items && before[n].retiredIn.None?
                                   then before[n].(retiredIn := Some(version)) else before[n])
        decreases rest
      {
        NotEmpty(rest);
        var number :| number in rest;
        rest := rest - {number};
        if number !in items && entries[number].retiredIn.None? {
          entries := entries[number := entries[number].(retiredIn := Some(version))];
        }
      }
      assert forall n: int :: n !in rest;
      assert entries.Keys == RetiredBy(before, version, items).Keys;
      assert forall n :: n in entries ==> entries[n] == RetiredBy(before, version, items)[n];
      assert entries == RetiredBy(before, version, items);
    }

    method NextFree() returns (identifier: string)
      ensures exists n :: IsNext(entries.Keys, n) && identifier == prefix + "-" + Spell(n)
    {
      var rest: set<int>, top := entries.Keys, 0;
      if rest != {} {
        NotEmpty(rest);
        top :| top in rest;
      }
      while rest != {}
        invariant rest <= entries.Keys && (entries == map[] ==> top == 0) && (entries != map[] ==> top in entries)
        invariant forall n :: n in entries && n !in rest ==> n <= top
        decreases rest
      {
        NotEmpty(rest);
        var n :| n in rest;
        rest := rest - {n};
        if n > top {
          top := n;
        }
      }
      assert IsNext(entries.Keys, top + 1);
      return prefix + "-" + Spell(top + 1);
    }

    /** Write the table out: every number under its one spelling, and what is loaded again is the
        table, exactly when every number in it is positive. */
    method Save()
      modifies this`file
      ensures file.Some? && file.value.prefix == Some(prefix) && file.value.lastVersion == lastVersion
      ensures forall n :: n in entries ==> Spell(n) in file.value.entries && file.value.entries[Spell(n)] == entries[n]
      ensures forall key :: key in file.value.entries ==> exists n :: n in entries && Spell(n) == key
      ensures Loads(file.value, prefix) <==> forall n :: n in entries ==> n > 0
      ensures Loads(file.value, prefix) ==> TableOf(file.value) == Contents()
    {
      hide TableOf, Loads;
      file := Some(Written(prefix, Contents()));
      WrittenKeeps(prefix, Contents());
      ReadsBackExactly(prefix, Contents());
    }

    /** Read the file back; any key in another spelling refuses the whole file. */
    static method Load(file: Option<LedgerFile>, prefix: string) returns (r: Result<IdLedger, LoadError>)
      ensures file.None? ==> r.Ok? && r.value.Contents() == EMPTY
      ensures file.Some? ==> (r.Ok? <==> Loads(file.value, prefix))
      ensures file.Some? && r.Ok? ==> r.value.Contents() == TableOf(file.value)
      ensures r.Ok? ==> fresh(r.value) && r.value.prefix == prefix && r.value.file == file
    {
      if file.None? {
        var empty := new IdLedger(prefix, map[], 0, file);
        return Ok(empty);
      }
      if file.value.prefix.Some? && file.value.prefix.value != prefix {
        return Err(OtherPrefix);
      }
      var bad, rest := [], file.value.entries.Keys;
      while rest != {}
        invariant rest <= file.value.entries.Keys
        invariant bad == [] <==> forall key :: key in file.value.entries && key !in rest ==> CanonicalKey(key)
        decreases rest
      {
        var key :| key in rest;
        rest := rest - {key};
        if !CanonicalKey(key) {
          bad := bad + [key];
        }
      }
      if bad != [] {
        return Err(BadKeys(bad));
      }
      var table := TableOf(file.value);
      var ledger := new IdLedger(prefix, table.entries, table.lastVersion, file);
      return Ok(ledger);
    }
  }

  // --- through the file --------------------------------------------------------------------

  /** The table that is written is the table that is read, exactly when every number in it is a
      positive one; otherwise the file refuses to load. */
  lemma ReadsBackExactly(prefix: string, t: Table)
    ensures Loads(Written(prefix, t), prefix) <==> forall n :: n in t.entries ==> n > 0
    ensures Loads(Written(prefix, t), prefix) ==> TableOf(Written(prefix, t)) == t
  {
    var f := Written(prefix, t);
    assert forall n :: n in t.entries ==> Spell(n) in f.entries && f.entries[Spell(n)] == t.entries[n] by {
      WrittenKeeps(prefix, t);
    }
    forall n: int
      ensures CanonicalKey(Spell(n)) <==> n > 0
      ensures n > 0 ==> Value(Spell(n)) == n
    {
      SpellIsCanonical(n);
    }
  }

  lemma WrittenKeeps(prefix: string, t: Table)
    ensures forall n :: n in t.entries ==>
              Spell(n) in Written(prefix, t).entries && Written(prefix, t).entries[Spell(n)] == t.entries[n]
    ensures forall key :: key in Written(prefix, t).entries ==> exists n :: n in t.entries && Spell(n) == key
  {
    forall n | n in t.entries
      ensures Spell(n) in Written(prefix, t).entries && Written(prefix, t).entries[Spell(n)] == t.entries[n]
    {
      forall m | m in t.entries && Spell(m) == Spell(n)
        ensures m == n
      {
        SpellIsInjective(m, n);
      }
    }
  }

  // --- over a whole history --------------------------------------------------------------

  /** What is done with a table: a version is registered, or refused without a trace; or the table
      is written out and read back, perhaps by another process. */
  datatype Act = Register(version: int, items: map<int, string>) | Reopen

  /** A file that does not load leaves nothing to go on with but the table itself. */
  function Done(prefix: string, t: Table, a: Act): Table {
    match a
    case Register(version, items) => Attempted(t, version, items)
    case Reopen => if Loads(Written(prefix, t), prefix) then TableOf(Written(prefix, t)) else t
  }

  function After(prefix: string, t: Table, acts: seq<Act>): Table {
    if acts == [] then t else Done(prefix, After(prefix, t, acts[..|acts| - 1]), acts[|acts| - 1])
  }

  /** Retirement comes after introduction, and neither after the last version. */
  predicate Orderly(t: Table) {
    forall n :: n in t.entries ==>
      && t.entries[n].introducedIn <= t.lastVersion
      && (t.entries[n].retiredIn.Some? ==> t.entries[n].introducedIn < t.entries[n].retiredIn.value <= t.lastVersion)
  }

  /** What one act can do to the number n. */
  predicate KeepsNumber(t: Table, u: Table, n: int) {
    && (n in t.entries ==> n in u.entries && u.entries[n].introducedIn == t.entries[n].introducedIn)
    && (IsRetired(t, n) ==> u.entries[n] == t.entries[n])
    && (n !in t.entries && n in u.entries ==> u.entries[n].introducedIn > t.lastVersion)
  }

  lemma ReopeningKeeps(prefix: string, t: Table)
    ensures Done(prefix, t, Reopen) == t
  {
    hide Written, TableOf;
    ReadsBackExactly(prefix, t);
  }

  lemma ActKeeps(prefix: string, t: Table, a: Act, n: int)
    ensures KeepsNumber(t, Done(prefix, t, a), n)
    ensures Done(prefix, t, a).lastVersion >= t.lastVersion
    ensures Orderly(t) ==> Orderly(Done(prefix, t, a))
  {
    hide Written, TableOf, Loads;
    ReopeningKeeps(prefix, t);
  }

  /** Once issued, a number stays in the table with the version that introduced it; once retired,
      its entry never changes again; and the versions only grow. */
  lemma {:induction false} NumbersAreForever(prefix: string, t: Table, acts: seq<Act>, n: int)
    ensures KeepsNumber(t, After(prefix, t, acts), n) && After(prefix, t, acts).lastVersion >= t.lastVersion
    ensures Orderly(t) ==> Orderly(After(prefix, t, acts))
  {
    hide Done, Orderly;
    if acts != [] {
      var init, last := acts[..|acts| - 1], acts[|acts| - 1];
      NumbersAreForever(prefix, t, init, n);
      ActKeeps(prefix, After(prefix, t, init), last, n);
    }
  }

  lemma {:induction false} HistoriesCompose(prefix: string, t: Table, earlier: seq<Act>, later: seq<Act>)
    ensures After(prefix, After(prefix, t, earlier), later) == After(prefix, t, earlier + later)
  {
    if later == [] {
      assert earlier + later == earlier;
    } else {
      HistoriesCompose(prefix, t, earlier, later[..|later| - 1]);
      assert (earlier + later)[..|earlier + later| - 1] == earlier + later[..|later| - 1];
    }
  }

  /** A retired number is never live again, and a version that names one is refused. */
  lemma RetiredStaysRetired(prefix: string, acts: seq<Act>, i: nat, n: int, version: int, items: map<int, string>)
    requires i <= |acts| && IsRetired(After(prefix, EMPTY, acts[..i]), n)
    ensures IsRetired(After(prefix, EMPTY, acts), n)
    ensures n in items ==> !Accepts(After(prefix, EMPTY, acts), version, items)
  {
    hide After;
    assert acts == acts[..i] + acts[i..];
    HistoriesCompose(prefix, EMPTY, acts[..i], acts[i..]);
    NumbersAreForever(prefix, After(prefix, EMPTY, acts[..i]), acts[i..], n);
  }

  /** The items of the last version that was accepted. */
  function LastAccepted(prefix: string, acts: seq<Act>): map<int, string> {
    if acts == [] then map[]
    else
      var init, last := acts[..|acts| - 1], acts[|acts| - 1];
      if last.Register? && Accepts(After(prefix, EMPTY, init), last.version, last.items) then last.items
      else LastAccepted(prefix, init)
  }

  /** The live numbers, and what they are for, are exactly those of the last accepted version. */
  lemma {:induction false} LiveAreTheLastVersions(prefix: string, acts: seq<Act>, n: int)
    ensures IsLive(After(prefix, EMPTY, acts), n) <==> n in LastAccepted(prefix, acts)
    ensures n in LastAccepted(prefix, acts) ==>
              After(prefix, EMPTY, acts).entries[n].about == LastAccepted(prefix, acts)[n]
  {
    hide Accepts, Written, TableOf, Loads;
    if acts != [] {
      LiveAreTheLastVersions(prefix, acts[..|acts| - 1], n);
      ReopeningKeeps(prefix, After(prefix, EMPTY, acts[..|acts| - 1]));
    }
  }

  /** The next free number was never issued before, at no point of the history. */
  lemma NextWasNeverIssued(prefix: string, acts: seq<Act>, i: nat, n: int)
    requires i <= |acts| && IsNext(After(prefix, EMPTY, acts).entries.Keys, n)
    ensures n !in After(prefix, EMPTY, acts[..i]).entries
  {
    hide After;
    assert acts == acts[..i] + acts[i..];
    HistoriesCompose(prefix, EMPTY, acts[..i], acts[i..]);
    NumbersAreForever(prefix, After(prefix, EMPTY, acts[..i]), acts[i..], n);
  }

  predicate PositiveItems(acts: seq<Act>) {
    forall i, n :: 0 <= i < |acts| && acts[i].Register? && n in acts[i].items ==> n > 0
  }

  lemma {:induction false} NumbersStayPositive(prefix: string, acts: seq<Act>)
    requires PositiveItems(acts)
    ensures forall n :: n in After(prefix, EMPTY, acts).entries ==> n > 0
  {
    hide Written, TableOf, Loads;
    if acts != [] {
      NumbersStayPositive(prefix, acts[..|acts| - 1]);
      ReopeningKeeps(prefix, After(prefix, EMPTY, acts[..|acts| - 1]));
    }
  }

  /** A ledger that is handed positive numbers can be closed and opened again at any point of its
      history: the file it writes loads, and what is loaded is the table that was written. */
  lemma ReopensAtAnyTime(prefix: string, acts: seq<Act>, i: nat)
    requires i <= |acts| && PositiveItems(acts)
    ensures var t := After(prefix, EMPTY, acts[..i]);
            Loads(Written(prefix, t), prefix) && TableOf(Written(prefix, t)) == t
  {
    hide Written, TableOf, Loads, After;
    NumbersStayPositive(prefix, acts[..i]);
    ReadsBackExactly(prefix, After(prefix, EMPTY, acts[..i]));
  }
}
