/** The snapshot of what is judged: files hashed with length-prefixed boundaries. */
module Snapshot {

  newtype Byte = n: int | 0 <= n < 256

  /** SHA-256 taken as an injective function: a digest is its input under a constructor. */
  datatype Digest = Sha256(input: seq<Byte>) | Sha256OfText(text: string)

  datatype File = File(name: seq<Byte>, body: seq<Byte>)

  const LENGTH_LIMIT: nat := 0x1_0000_0000_0000_0000

  /** A length that eight bytes can carry. */
  predicate Fits(f: File) {
    |f.name| < LENGTH_LIMIT && |f.body| < LENGTH_LIMIT
  }

  type Artifact = files: seq<File> | forall f :: f in files ==> Fits(f)

  function Power256(width: nat): (p: nat)
    ensures p > 0
  {
    if width == 0 then 1 else 256 * Power256(width - 1)
  }

  function BigEndian(n: nat, width: nat): (bytes: seq<Byte>)
    ensures |bytes| == width
  {
    if width == 0 then [] else BigEndian(n / 256, width - 1) + [(n % 256) as Byte]
  }

  function ReadBigEndian(bytes: seq<Byte>): nat {
    if bytes == [] then 0
    else ReadBigEndian(bytes[..|bytes| - 1]) * 256 + bytes[|bytes| - 1] as int
  }

  lemma {:induction false} BigEndianRoundTrip(n: nat, width: nat)
    requires n < Power256(width)
    ensures ReadBigEndian(BigEndian(n, width)) == n
  {
    if width > 0 {
      assert BigEndian(n, width)[..width - 1] == BigEndian(n / 256, width - 1);
      BigEndianRoundTrip(n / 256, width - 1);
    }
  }

  function Length(n: nat): (bytes: seq<Byte>)
    ensures |bytes| == 8
  {
    BigEndian(n, 8)
  }

  lemma LengthIsInjective(m: nat, n: nat)
    requires m < LENGTH_LIMIT && n < LENGTH_LIMIT && Length(m) == Length(n)
    ensures m == n
  {
    assert Power256(8) == LENGTH_LIMIT by {
      assert Power256(2) == 0x1_0000;
      assert Power256(4) == 0x1_0000_0000;
      assert Power256(6) == 0x1_0000_0000_0000;
    }
    BigEndianRoundTrip(m, 8);
    BigEndianRoundTrip(n, 8);
  }

  function EncodeFile(f: File): seq<Byte> {
    Length(|f.name|) + f.name + Length(|f.body|) + f.body
  }

  function Encode(files: seq<File>): seq<Byte> {
    if files == [] then [] else Encode(files[..|files| - 1]) + EncodeFile(files[|files| - 1])
  }

  lemma {:induction false} EncodeFront(files: seq<File>)
    requires files != []
    ensures Encode(files) == EncodeFile(files[0]) + Encode(files[1..])
  {
    hide EncodeFile;
    var last := |files| - 1;
    var front, back := files[..last], files[1..];
    if last == 0 {
      assert front == [] && back == [];
    } else {
      EncodeFront(front);
      assert front[1..] == back[..last - 1];
      assert Encode(back) == Encode(front[1..]) + EncodeFile(files[last]);
    }
  }

  lemma OnlyNothingIsEmpty(files: seq<File>)
    ensures Encode(files) == [] <==> files == []
  {
  }

  /** A length-prefixed block is read off the front of a byte string in one way only. */
  lemma BlockIsUnique(a: seq<Byte>, s: seq<Byte>, b: seq<Byte>, t: seq<Byte>)
    requires |a| < LENGTH_LIMIT && |b| < LENGTH_LIMIT
    requires Length(|a|) + a + s == Length(|b|) + b + t
    ensures a == b && s == t
  {
    var x, y := Length(|a|) + a + s, Length(|b|) + b + t;
    assert x[..8] == Length(|a|) && y[..8] == Length(|b|);
    LengthIsInjective(|a|, |b|);
    assert x[8..8 + |a|] == a && y[8..8 + |b|] == b;
    assert x[8 + |a|..] == s && y[8 + |b|..] == t;
  }

  lemma EncodeFileApart(f: File, s: seq<Byte>)
    ensures EncodeFile(f) + s == Length(|f.name|) + f.name + (Length(|f.body|) + f.body + s)
  {
    hide Length;
    var head, tail := Length(|f.name|) + f.name, Length(|f.body|) + f.body;
    assert EncodeFile(f) == head + tail;
    assert (head + tail) + s == head + (tail + s);
  }

  lemma FileIsUnique(f: File, s: seq<Byte>, g: File, t: seq<Byte>)
    requires Fits(f) && Fits(g)
    requires EncodeFile(f) + s == EncodeFile(g) + t
    ensures f == g && s == t
  {
    hide Length, EncodeFile;
    EncodeFileApart(f, s);
    EncodeFileApart(g, t);
    BlockIsUnique(f.name, Length(|f.body|) + f.body + s, g.name, Length(|g.body|) + g.body + t);
    BlockIsUnique(f.body, s, g.body, t);
  }

  /** The encoding is uniquely decodable: neither a file boundary nor the boundary between a
      name and its content can move without changing the bytes that are hashed. */
  lemma {:induction false} EncodeIsInjective(a: Artifact, b: Artifact)
    requires Encode(a) == Encode(b)
    ensures a == b
    decreases |a|
  {
    hide Encode, EncodeFile;
    OnlyNothingIsEmpty(a);
    OnlyNothingIsEmpty(b);
    if a != [] && b != [] {
      EncodeFront(a);
      EncodeFront(b);
      assert a[0] in a && b[0] in b;
      FileIsUnique(a[0], Encode(a[1..]), b[0], Encode(b[1..]));
      EncodeIsInjective(a[1..], b[1..]);
      assert a == [a[0]] + a[1..] && b == [b[0]] + b[1..];
    }
  }

  /** The running hash: four updates for every file, in order. */
  method HashFiles(files: Artifact) returns (digest: Digest)
    ensures digest == Sha256(Encode(files))
  {
    var h: seq<Byte> := [];
    for i := 0 to |files|
      invariant h == Encode(files[..i])
    {
      var name, body := files[i].name, files[i].body;
      h := h + Length(|name|);
      h := h + name;
      h := h + Length(|body|);
      h := h + body;
      assert files[..i + 1][..i] == files[..i];
      assert h == Encode(files[..i]) + EncodeFile(files[i]);
    }
    assert files[..|files|] == files;
    digest := Sha256(h);
  }

  const DESCRIPTION_KEY := "__task_description__"
  const NOTE_KEY := "__launch_note__"

  /** What is judged: the artefacts of the run, the task description and the launch note. */
  datatype Judged = Judged(artifacts: map<string, Artifact>, description: string, note: string)

  /** The reserved keys are written after the artefacts. */
  function Digests(judged: Judged): map<string, Digest> {
    (map path | path in judged.artifacts :: Sha256(Encode(judged.artifacts[path])))
    [DESCRIPTION_KEY := Sha256OfText(judged.description)]
    [NOTE_KEY := Sha256OfText(judged.note)]
  }

  /** Some artefact path is spelled like a reserved key of the snapshot. */
  predicate Reserved(paths: set<string>) {
    DESCRIPTION_KEY in paths || NOTE_KEY in paths
  }

  /** Equal snapshots of one run mean that everything judged is equal, byte for byte. */
  lemma EqualDigestsMeanEqualFiles(a: Judged, b: Judged)
    requires a.artifacts.Keys == b.artifacts.Keys && !Reserved(a.artifacts.Keys)
    ensures Digests(a) == Digests(b) <==> a == b
  {
    if Digests(a) == Digests(b) {
      assert Digests(a)[DESCRIPTION_KEY] == Digests(b)[DESCRIPTION_KEY];
      assert Digests(a)[NOTE_KEY] == Digests(b)[NOTE_KEY];
      forall path | path in a.artifacts
        ensures a.artifacts[path] == b.artifacts[path]
      {
        assert Digests(a)[path] == Digests(b)[path];
        EncodeIsInjective(a.artifacts[path], b.artifacts[path]);
      }
      assert a.artifacts == b.artifacts;
    }
  }

  ghost predicate SnapshotIsFaithful(paths: set<string>) {
    forall a: Judged, b: Judged :: a.artifacts.Keys == b.artifacts.Keys == paths && Digests(a) == Digests(b) ==> a == b
  }

  /** A path spelled like a reserved key is overwritten by it: edits of that artefact would go
      unseen. Such paths are the only ones for which the snapshot misses a change. */
  lemma SnapshotIsFaithfulExactly(paths: set<string>)
    ensures SnapshotIsFaithful(paths) <==> !Reserved(paths)
  {
    if !Reserved(paths) {
      forall a: Judged, b: Judged | a.artifacts.Keys == b.artifacts.Keys == paths && Digests(a) == Digests(b)
        ensures a == b
      {
        EqualDigestsMeanEqualFiles(a, b);
      }
    } else {
      var hidden := if DESCRIPTION_KEY in paths then DESCRIPTION_KEY else NOTE_KEY;
      var none: Artifact, one: Artifact := [], [File([], [])];
      var quiet := map path | path in paths :: none;
      var a, b := Judged(quiet, "", ""), Judged(quiet[hidden := one], "", "");
      assert a.artifacts[hidden] != b.artifacts[hidden];
      assert Digests(a) == Digests(b);
    }
  }
}
