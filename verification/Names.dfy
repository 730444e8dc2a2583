/** The names of a round's files: how a round number is written into a file name and how
    recovery reads it back from a directory listing. */
module Names {
  import opened Wrappers
  import opened Text
  import opened Sequences

  datatype Kind = PassFile | OutcomesFile | RequestsFile | AnswersFile

  const PREFIX := "round_"

  function Suffix(kind: Kind): (s: string)
    ensures |s| > 0 && s[0] == '_'
  {
    match kind
    case PassFile => "_pass.md"
    case OutcomesFile => "_outcomes.md"
    case RequestsFile => "_gate_requests.json"
    case AnswersFile => "_gate_answers.json"
  }

  /** Two digits are the minimum of formatting, not a ceiling. */
  function Padded(n: nat): (s: string)
    ensures |s| >= 2 && AllDigits(s)
  {
    if n < 10 then "0" + Digits(n) else Digits(n)
  }

  function Name(kind: Kind, n: nat): string {
    PREFIX + Padded(n) + Suffix(kind)
  }

  /** The pattern ends in `$`, which also matches before one trailing newline. */
  function Chomped(name: string): string {
    if name != [] && name[|name| - 1] == '\n' then name[..|name| - 1] else name
  }

  /** The number `^round_(\d{2,})SUFFIX$` reads out of a file name, if it matches at all. */
  function Parse(kind: Kind, name: string): Option<nat> {
    var s := Chomped(name);
    var suffix := Suffix(kind);
    var from, to := |PREFIX|, |s| - |suffix|;
    if from + 2 <= to && s[..from] == PREFIX && s[to..] == suffix && AllDigits(s[from..to]) then
      Some(Value(s[from..to]))
    else
      None
  }

  /** A file name that belongs to no round: recovery passes over it in silence. */
  type ForeignName = s: string | forall kind :: Parse(kind, s) == None
    witness ""

  lemma PaddedValue(n: nat)
    ensures Value(Padded(n)) == n
  {
    ValueOfDigits(n);
    LeadingZero(Digits(n));
  }

  /** Digits followed by a non-digit determine where the digits end. */
  lemma {:induction false} SplitIsUnique(d: string, s: string, e: string, t: string)
    requires AllDigits(d) && AllDigits(e)
    requires s != [] && t != [] && !IsDigit(s[0]) && !IsDigit(t[0])
    requires d + s == e + t
    ensures d == e && s == t
  {
    assert (d + s)[0] == (e + t)[0];
    if d == [] {
      assert e == [];
      assert d + s == s && e + t == t;
    } else {
      assert e != [];
      assert (d + s)[1..] == d[1..] + s && (e + t)[1..] == e[1..] + t;
      SplitIsUnique(d[1..], s, e[1..], t);
    }
  }

  lemma SuffixesDiffer(k1: Kind, k2: Kind)
    ensures Suffix(k1) == Suffix(k2) ==> k1 == k2
    ensures Suffix(k1)[|Suffix(k1)| - 1] != '\n'
  {
    assert |Suffix(PassFile)| == 8 && |Suffix(OutcomesFile)| == 12;
    assert |Suffix(RequestsFile)| == 19 && |Suffix(AnswersFile)| == 18;
  }

  /** What the pattern of one family accepts is a prefix, at least two digits and its suffix. */
  lemma ParseShape(kind: Kind, name: string)
    requires Chomped(name) == name
    ensures Parse(kind, name).Some? <==>
            exists d :: |d| >= 2 && AllDigits(d) && name == PREFIX + d + Suffix(kind)
    ensures forall d :: |d| >= 2 && AllDigits(d) && name == PREFIX + d + Suffix(kind) ==>
            Parse(kind, name) == Some(Value(d))
  {
    hide Suffix, Value;
    var from, to := |PREFIX|, |name| - |Suffix(kind)|;
    if Parse(kind, name).Some? {
      var d := name[from..to];
      assert name == PREFIX + d + Suffix(kind);
    }
    forall d | |d| >= 2 && AllDigits(d) && name == PREFIX + d + Suffix(kind)
      ensures Parse(kind, name) == Some(Value(d))
    {
      assert name[..from] == PREFIX && name[from..to] == d && name[to..] == Suffix(kind);
    }
  }

  lemma ConcatenationEndsLikeItsTail(s: string, t: string)
    requires t != [] && t[|t| - 1] != '\n'
    ensures Chomped(s + t) == s + t
  {
  }

  lemma SameTail(prefix: string, d: string, s: string, e: string, t: string)
    requires AllDigits(d) && AllDigits(e)
    requires s != [] && t != [] && !IsDigit(s[0]) && !IsDigit(t[0])
    requires prefix + d + s == prefix + e + t
    ensures s == t
  {
    assert (prefix + d + s)[|prefix|..] == d + s;
    assert (prefix + e + t)[|prefix|..] == e + t;
    SplitIsUnique(d, s, e, t);
  }

  /** Every round number survives its file name, and a name is claimed by one family only. */
  lemma ParseOfName(kind: Kind, other: Kind, n: nat)
    ensures Parse(other, Name(kind, n)) == if kind == other then Some(n) else None
  {
    var name, d := Name(kind, n), Padded(n);
    SuffixesDiffer(kind, other);
    ConcatenationEndsLikeItsTail(PREFIX + d, Suffix(kind));
    PaddedValue(n);
    ParseShape(other, name);
    if kind != other && Parse(other, name).Some? {
      var e :| |e| >= 2 && AllDigits(e) && name == PREFIX + e + Suffix(other);
      SameTail(PREFIX, d, Suffix(kind), e, Suffix(other));
    }
  }

  /** Different files have different names. */
  lemma NameIsInjective(k1: Kind, n1: nat, k2: Kind, n2: nat)
    requires Name(k1, n1) == Name(k2, n2)
    ensures k1 == k2 && n1 == n2
  {
    ParseOfName(k1, k1, n1);
    ParseOfName(k2, k1, n2);
  }

  /** One file name is claimed by at most one family. */
  lemma FamiliesAreDisjoint(k1: Kind, k2: Kind, name: string)
    requires Parse(k1, name).Some? && Parse(k2, name).Some?
    ensures k1 == k2
  {
    hide Suffix;
    var s := Chomped(name);
    var d := s[|PREFIX|..|s| - |Suffix(k1)|];
    var e := s[|PREFIX|..|s| - |Suffix(k2)|];
    assert s == PREFIX + d + Suffix(k1);
    assert s == PREFIX + e + Suffix(k2);
    SameTail(PREFIX, d, Suffix(k1), e, Suffix(k2));
    SuffixesDiffer(k1, k2);
  }

  /** The numbers a directory listing holds for one family, in the order of the listing. */
  function Bucket(kind: Kind, children: seq<string>): seq<nat> {
    if children == [] then []
    else
      var last := |children| - 1;
      Bucket(kind, children[..last]) +
      match Parse(kind, children[last]) case Some(n) => [n] case None => []
  }

  /** Every listed name is a foreign one or the proper name of some round's file. */
  predicate ProperName(name: string) {
    forall kind :: Parse(kind, name).Some? ==> name == Name(kind, Parse(kind, name).value)
  }

  lemma {:induction false} BucketMembers(kind: Kind, children: seq<string>, n: nat)
    requires forall i :: 0 <= i < |children| ==> ProperName(children[i])
    ensures n in Bucket(kind, children) <==> Name(kind, n) in children
  {
    hide Parse, Name;
    if children != [] {
      var last := |children| - 1;
      BucketMembers(kind, children[..last], n);
      ParseOfName(kind, kind, n);
      assert children == children[..last] + [children[last]];
      assert ProperName(children[last]);
    }
  }

  lemma {:induction false} BucketHasNoDuplicates(kind: Kind, children: seq<string>)
    requires NoDuplicates(children) && forall i :: 0 <= i < |children| ==> ProperName(children[i])
    ensures NoDuplicates(Bucket(kind, children))
  {
    hide Parse, Name;
    if children != [] {
      var last := |children| - 1;
      BucketHasNoDuplicates(kind, children[..last]);
      if Parse(kind, children[last]).Some? {
        var n := Parse(kind, children[last]).value;
        assert ProperName(children[last]);
        BucketMembers(kind, children[..last], n);
      }
    }
  }
}
