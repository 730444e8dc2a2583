/** Cutting a document into chunks: paragraphs packed greedily, long ones split. */
module Chunking {
  import opened Wrappers
  import opened Text
  import opened Paragraphing

  // --- packings ---------------------------------------------------------------------------

  /** One step of a packing: short paragraphs side by side in one chunk, or a long one in pieces. */
  datatype Segment = Together(group: seq<string>) | Split(pieces: seq<string>)

  const GAP := "\n\n"

  function Concat(parts: seq<string>): string {
    if parts == [] then [] else Concat(parts[..|parts| - 1]) + parts[|parts| - 1]
  }

  /** The paragraphs of a group, in order, with an empty line between. */
  function Grouped(group: seq<string>): string {
    if group == [] then []
    else if |group| == 1 then group[0]
    else Grouped(group[..|group| - 1]) + GAP + group[|group| - 1]
  }

  /** What a segment is made of, and the chunks it becomes. */
  function SourceOf(s: Segment): seq<string> {
    match s
    case Together(group) => group
    case Split(pieces) => [Concat(pieces)]
  }

  function ChunksOf(s: Segment): seq<string> {
    match s
    case Together(group) => [Grouped(group)]
    case Split(pieces) => pieces
  }

  function Sources(packing: seq<Segment>): seq<string> {
    if packing == [] then [] else Sources(packing[..|packing| - 1]) + SourceOf(packing[|packing| - 1])
  }

  function Chunks(packing: seq<Segment>): seq<string> {
    if packing == [] then [] else Chunks(packing[..|packing| - 1]) + ChunksOf(packing[|packing| - 1])
  }

  predicate SegmentFits(s: Segment, max: nat) {
    match s
    case Together(group) => group != [] && |Grouped(group)| <= max && forall i :: 0 <= i < |group| ==> group[i] != []
    case Split(pieces) => |Concat(pieces)| > max && forall i :: 0 <= i < |pieces| ==> 1 <= |pieces[i]| <= max
  }

  /** A packing keeps paragraphs that fit whole, splits the others by themselves, and makes no
      chunk longer than allowed. */
  predicate IsPacking(packing: seq<Segment>, max: nat) {
    forall i :: 0 <= i < |packing| ==> SegmentFits(packing[i], max)
  }

  /** Of a long paragraph every piece but the last is as long as allowed. */
  predicate CutInFull(pieces: seq<string>, max: nat) {
    forall i :: 0 <= i < |pieces| - 1 ==> |pieces[i]| == max
  }

  /** The paragraph has no room in the chunk before it. */
  predicate NoRoom(packing: seq<Segment>, p: string, max: nat) {
    packing != [] && packing[|packing| - 1].Together? ==>
      |Grouped(packing[|packing| - 1].group)| + |GAP| + |p| > max
  }

  /** A new chunk was begun only for a paragraph that had no room in the one before. */
  predicate Greedy(packing: seq<Segment>, max: nat) {
    && (forall i :: 0 <= i < |packing| && packing[i].Split? ==> CutInFull(packing[i].pieces, max))
    && (forall i :: 0 <= i < |packing| && packing[i].Together? ==>
          packing[i].group != [] && NoRoom(packing[..i], packing[i].group[0], max))
  }

  // --- the greedy count ----------------------------------------------------------------------

  /** The number of pieces of a long paragraph. */
  function Pieces(length: nat, max: nat): nat
    requires max > 0
  {
    if length <= max then 1 else 1 + Pieces(length - max, max)
  }

  /** How many chunks packing goes on to make, with `open` characters in the chunk at hand. */
  function Count(open: nat, paragraphs: seq<string>, max: nat): nat
    requires max > 0
    decreases |paragraphs|
  {
    if paragraphs == [] then (if open > 0 then 1 else 0)
    else
      var p, rest := |paragraphs[0]|, paragraphs[1..];
      if p > max then (if open > 0 then 1 else 0) + Pieces(p, max) + Count(0, rest, max)
      else if open > 0 && open + p + 2 > max then 1 + Count(p, rest, max)
      else Count(if open > 0 then open + p + 2 else p, rest, max)
  }

  /** A fuller chunk at hand never saves a chunk, and an empty one never costs more than one. */
  lemma {:induction false} FullerIsNoBetter(a: nat, b: nat, paragraphs: seq<string>, max: nat)
    requires max > 0 && 0 < a <= b && forall i :: 0 <= i < |paragraphs| ==> paragraphs[i] != []
    ensures Count(a, paragraphs, max) <= Count(b, paragraphs, max)
    ensures Count(b, paragraphs, max) <= 1 + Count(0, paragraphs, max)
    ensures Count(0, paragraphs, max) <= Count(a, paragraphs, max)
    decreases |paragraphs|
  {
    if paragraphs != [] {
      var p, rest := |paragraphs[0]|, paragraphs[1..];
      assert paragraphs[0] != [];
      if p <= max {
        FullerIsNoBetter(a + p + 2, b + p + 2, rest, max);
        FullerIsNoBetter(p, a + p + 2, rest, max);
        FullerIsNoBetter(p, b + p + 2, rest, max);
      }
    }
  }

  lemma {:induction false} FewestPieces(pieces: seq<string>, max: nat)
    requires max > 0 && pieces != [] && forall i :: 0 <= i < |pieces| ==> 1 <= |pieces[i]| <= max
    ensures Pieces(|Concat(pieces)|, max) <= |pieces|
  {
    var init := pieces[..|pieces| - 1];
    if init == [] {
      assert Concat(init) == [];
    } else {
      FewestPieces(init, max);
      PiecesGrow(|Concat(init)|, |pieces[|pieces| - 1]|, max);
    }
  }

  lemma {:induction false} PiecesGrow(length: nat, more: nat, max: nat)
    requires max > 0 && more <= max
    ensures Pieces(length, max) <= Pieces(length + more, max) <= Pieces(length, max) + 1
    decreases length
  {
    if length > max {
      PiecesGrow(length - max, more, max);
    }
  }

  /** A group that fits is packed without a break. */
  lemma {:induction false} GroupsPackTogether(group: seq<string>, rest: seq<string>, max: nat)
    requires max > 0 && SegmentFits(Together(group), max)
    ensures Count(0, group + rest, max) == Count(|Grouped(group)|, rest, max)
    decreases |group|
  {
    var init, last := group[..|group| - 1], group[|group| - 1];
    if init == [] {
      assert group + rest == [last] + rest;
      assert (group + rest)[1..] == rest;
    } else {
      assert group + rest == init + ([last] + rest);
      GroupsPackTogether(init, [last] + rest, max);
      assert ([last] + rest)[1..] == rest;
    }
  }

  // --- the code ----------------------------------------------------------------------------------

  /** A paragraph longer than a chunk, cut every `max` characters. */
  method SplitLong(paragraph: string, max: nat) returns (pieces: seq<string>)
    requires max > 0 && |paragraph| > 0
    ensures Concat(pieces) == paragraph && |pieces| == Pieces(|paragraph|, max)
    ensures forall i :: 0 <= i < |pieces| ==> 1 <= |pieces[i]| <= max
    ensures CutInFull(pieces, max)
  {
    pieces := [];
    var i := 0;
    while i < |paragraph|
      invariant if i <= |paragraph| then forall j :: 0 <= j < |pieces| ==> |pieces[j]| == max
                else CutInFull(pieces, max)
      invariant 0 <= i && Concat(pieces) == paragraph[..if i < |paragraph| then i else |paragraph|]
      invariant forall j :: 0 <= j < |pieces| ==> 1 <= |pieces[j]| <= max
      invariant |pieces| + (if i < |paragraph| then Pieces(|paragraph| - i, max) else 0) == Pieces(|paragraph|, max)
      decreases |paragraph| - i
    {
      var end := if i + max < |paragraph| then i + max else |paragraph|;
      ghost var before := pieces;
      pieces := pieces + [paragraph[i..end]];
      assert pieces[..|pieces| - 1] == before;
      assert paragraph[..end] == paragraph[..i] + paragraph[i..end];
      i := i + max;
    }
    assert paragraph[..|paragraph|] == paragraph;
  }

  lemma OneMoreSegment(packing: seq<Segment>, s: Segment)
    ensures Sources(packing + [s]) == Sources(packing) + SourceOf(s)
    ensures Chunks(packing + [s]) == Chunks(packing) + ChunksOf(s)
  {
    assert (packing + [s])[..|packing|] == packing;
  }

  lemma OneMoreInGroup(group: seq<string>, p: string)
    ensures Grouped(group + [p]) == if group == [] then p else Grouped(group) + GAP + p
  {
    assert (group + [p])[..|group|] == group;
  }

  lemma {:induction false} GroupsAreNotEmpty(group: seq<string>)
    requires group != [] && forall i :: 0 <= i < |group| ==> group[i] != []
    ensures Grouped(group) != []
  {
  }

  /** What the loop keeps. The paragraphs of the chunk at hand are `group`. */
  ghost predicate Underway(packing: seq<Segment>, group: seq<string>, chunks: seq<string>, current: string, max: nat) {
    && IsPacking(packing, max) && Chunks(packing) == chunks && current == Grouped(group)
    && (group != [] ==> SegmentFits(Together(group), max))
  }

  lemma Closing(packing: seq<Segment>, group: seq<string>, chunks: seq<string>, current: string, max: nat)
    requires Underway(packing, group, chunks, current, max)
    ensures group == [] <==> current == []
    ensures group != [] ==>
              && Underway(packing + [Together(group)], [], chunks + [current], [], max)
              && Sources(packing + [Together(group)]) == Sources(packing) + group
  {
    if group != [] {
      GroupsAreNotEmpty(group);
      OneMoreSegment(packing, Together(group));
    }
  }

  lemma Splitting(packing: seq<Segment>, chunks: seq<string>, pieces: seq<string>, max: nat)
    requires Underway(packing, [], chunks, [], max) && SegmentFits(Split(pieces), max)
    ensures Underway(packing + [Split(pieces)], [], chunks + pieces, [], max)
    ensures Sources(packing + [Split(pieces)]) == Sources(packing) + [Concat(pieces)]
  {
    OneMoreSegment(packing, Split(pieces));
  }

  lemma Joining(packing: seq<Segment>, group: seq<string>, chunks: seq<string>, current: string, p: string, max: nat)
    requires Underway(packing, group, chunks, current, max) && p != [] && |p| <= max
    requires group != [] ==> |current| + |p| + 2 <= max
    ensures Underway(packing, group + [p], chunks, if group == [] then p else current + GAP + p, max)
  {
    hide Chunks, IsPacking, Grouped;
    OneMoreInGroup(group, p);
  }

  /** The packing is greedy so far, and the chunk at hand was begun because it had to be. */
  ghost predicate GreedySoFar(packing: seq<Segment>, group: seq<string>, max: nat) {
    && Greedy(packing, max)
    && if group == [] then packing == [] || packing[|packing| - 1].Split? else NoRoom(packing, group[0], max)
  }

  lemma GreedyClosing(packing: seq<Segment>, group: seq<string>, max: nat)
    requires GreedySoFar(packing, group, max)
    ensures group != [] ==> Greedy(packing + [Together(group)], max)
  {
    var more := packing + [Together(group)];
    assert forall i :: 0 <= i <= |packing| ==> more[..i] == packing[..i];
    assert packing[..|packing|] == packing;
  }

  lemma GreedySplitting(packing: seq<Segment>, pieces: seq<string>, max: nat)
    requires Greedy(packing, max) && CutInFull(pieces, max)
    ensures GreedySoFar(packing + [Split(pieces)], [], max)
  {
    assert forall i :: 0 <= i <= |packing| ==> (packing + [Split(pieces)])[..i] == packing[..i];
  }

  lemma GreedyBeginning(packing: seq<Segment>, p: string, max: nat)
    requires GreedySoFar(packing, [], max) || (Greedy(packing, max) && NoRoom(packing, p, max))
    ensures GreedySoFar(packing, [p], max)
  {
  }

  lemma GreedyJoining(packing: seq<Segment>, group: seq<string>, p: string, max: nat)
    requires GreedySoFar(packing, group, max) && group != []
    ensures GreedySoFar(packing, group + [p], max)
  {
  }

  /** One paragraph of the loop. */
  method PackOne(chunks: seq<string>, current: string, para: string, max: nat, ghost packing: seq<Segment>,
                 ghost group: seq<string>)
    returns (chunks': seq<string>, current': string, ghost packing': seq<Segment>, ghost group': seq<string>)
    requires max > 0 && para != [] && Underway(packing, group, chunks, current, max) && GreedySoFar(packing, group, max)
    ensures Underway(packing', group', chunks', current', max) && GreedySoFar(packing', group', max)
    ensures Sources(packing') + group' == Sources(packing) + group + [para]
    ensures forall rest :: |chunks'| + Count(|current'|, rest, max) == |chunks| + Count(|current|, [para] + rest, max)
  {
    hide Underway, Grouped, Sources, Chunks, SegmentFits, Greedy, NoRoom, GreedySoFar, CutInFull;
    chunks', current', packing', group' := chunks, current, packing, group;
    Closing(packing, group, chunks, current, max);
    GreedyClosing(packing, group, max);
    assert forall rest: seq<string> :: ([para] + rest)[0] == para && ([para] + rest)[1..] == rest;
    if current != [] && |current| + |para| + 2 > max {
      chunks', current', packing', group' := chunks + [current], [], packing + [Together(group)], [];
      FullChunk(packing, group, chunks, current, para, max);
    }
    if |para| > max {
      var pieces := SplitLong(para, max);
      LongSegmentFits(pieces, max);
      Splitting(packing', chunks', pieces, max);
      GreedyAlready(packing', group', max);
      GreedySplitting(packing', pieces, max);
      chunks', packing' := chunks' + pieces, packing' + [Split(pieces)];
    } else {
      Closing(packing', group', chunks', current', max);
      Joining(packing', group', chunks', current', para, max);
      if group' == [] {
        GreedyBeginning(packing', para, max);
        assert [] + [para] == [para];
      } else {
        GreedyJoining(packing', group', para, max);
      }
      current', group' := if current' != [] then current' + GAP + para else para, group' + [para];
    }
  }

  lemma GreedyAlready(packing: seq<Segment>, group: seq<string>, max: nat)
    ensures GreedySoFar(packing, group, max) ==> Greedy(packing, max)
  {
  }

  /** The chunk that was closed had no room for the paragraph. */
  lemma FullChunk(packing: seq<Segment>, group: seq<string>, chunks: seq<string>, current: string, p: string, max: nat)
    requires Underway(packing, group, chunks, current, max) && |current| + |p| + 2 > max
    ensures NoRoom(packing + [Together(group)], p, max)
  {
  }

  lemma LongSegmentFits(pieces: seq<string>, max: nat)
    requires |Concat(pieces)| > max && forall i :: 0 <= i < |pieces| ==> 1 <= |pieces[i]| <= max
    ensures SegmentFits(Split(pieces), max)
  {
  }

  /** Split a text into chunks. With room for at least one character in a chunk the result is a
      packing of all paragraphs with the greedy count of chunks; a limit of zero fails as soon as
      there is a paragraph, and a negative one loses them all. */
  method ChunkText(text: string, max: int) returns (r: Result<seq<string>, ()>, ghost packing: seq<Segment>)
    ensures max >= 1 ==>
              && r == Ok(Chunks(packing)) && IsPacking(packing, max) && Sources(packing) == Paragraphs(text)
              && |Chunks(packing)| == Count(0, Paragraphs(text), max) && Greedy(packing, max)
    ensures max == 0 ==> (r.Err? <==> Paragraphs(text) != [])
    ensures max < 0 ==> r == Ok([])
  {
    hide Paragraphs, Underway, Chunks, Sources, Count, Greedy, NoRoom, GreedySoFar;
    packing := [];
    var paragraphs := Paragraphs(text);
    if max == 0 && paragraphs != [] {
      return Err(()), packing;
    }
    if max <= 0 {
      return Ok([]), packing;
    }
    var chunks: seq<string>, current := [], "";
    ghost var group: seq<string> := [];
    NothingPacked(max);
    for i := 0 to |paragraphs|
      invariant Underway(packing, group, chunks, current, max) && GreedySoFar(packing, group, max)
      invariant Sources(packing) + group == paragraphs[..i]
      invariant |chunks| + Count(|current|, paragraphs[i..], max) == Count(0, paragraphs, max)
    {
      assert paragraphs[i..] == [paragraphs[i]] + paragraphs[i + 1..];
      assert paragraphs[..i + 1] == paragraphs[..i] + [paragraphs[i]];
      chunks, current, packing, group := PackOne(chunks, current, paragraphs[i], max, packing, group);
    }
    assert paragraphs[..|paragraphs|] == paragraphs;
    Closing(packing, group, chunks, current, max);
    GreedyClosing(packing, group, max);
    GreedyAlready(packing, group, max);
    CountOfNothing(|current|, max);
    if current != [] {
      chunks, packing := chunks + [current], packing + [Together(group)];
      group := [];
    }
    PackedAll(packing, chunks, max);
    return Ok(chunks), packing;
  }

  lemma NothingPacked(max: nat)
    ensures Underway([], [], [], "", max) && GreedySoFar([], [], max)
    ensures Sources([]) == [] && forall s: seq<string> :: Sources([]) + [] == s[..0]
  {
  }

  lemma CountOfNothing(open: nat, max: nat)
    requires max > 0
    ensures Count(open, [], max) == if open > 0 then 1 else 0
  {
  }

  lemma PackedAll(packing: seq<Segment>, chunks: seq<string>, max: nat)
    requires Underway(packing, [], chunks, [], max)
    ensures IsPacking(packing, max) && Chunks(packing) == chunks
  {
  }

  // --- what a packing promises ------------------------------------------------------------------------

  lemma {:induction false} FirstSegment(s: Segment, rest: seq<Segment>)
    ensures Sources([s] + rest) == SourceOf(s) + Sources(rest)
    ensures Chunks([s] + rest) == ChunksOf(s) + Chunks(rest)
  {
    hide Sources, Chunks, SourceOf, ChunksOf;
    if rest == [] {
      OneMoreSegment([], s);
      NothingMade();
      assert [s] + rest == [] + [s];
    } else {
      var init, last := rest[..|rest| - 1], rest[|rest| - 1];
      FirstSegment(s, init);
      OneMoreSegment(init, last);
      OneMoreSegment([s] + init, last);
      assert rest == init + [last] && [s] + rest == ([s] + init) + [last];
    }
  }

  lemma NothingMade()
    ensures Sources([]) == [] && Chunks([]) == []
  {
  }

  /** Every chunk holds something, and none is longer than allowed. */
  lemma {:induction false} ChunksFit(packing: seq<Segment>, max: nat)
    requires max > 0 && IsPacking(packing, max)
    ensures forall c :: c in Chunks(packing) ==> 1 <= |c| <= max
    ensures forall p :: p in Sources(packing) ==> p != []
  {
    if packing != [] {
      var last := packing[|packing| - 1];
      ChunksFit(packing[..|packing| - 1], max);
      assert SegmentFits(last, max);
      if last.Together? {
        GroupsAreNotEmpty(last.group);
      }
    }
  }

  /** No packing that keeps the order, keeps whole what fits and splits only what does not, by
      itself, uses fewer chunks than the greedy one. */
  lemma {:induction false} GreedyIsOptimal(packing: seq<Segment>, max: nat)
    requires max > 0 && IsPacking(packing, max)
    ensures Count(0, Sources(packing), max) <= |Chunks(packing)|
    decreases |packing|
  {
    hide Sources, Chunks, Count;
    if packing == [] {
      NothingMade();
      CountOfNothing(0, max);
    } else {
      var s, rest := packing[0], packing[1..];
      assert packing == [s] + rest && SegmentFits(s, max);
      FirstSegment(s, rest);
      GreedyIsOptimal(rest, max);
      ChunksFit(rest, max);
      SegmentCosts(s, Sources(rest), max);
    }
  }

  /** A segment in front costs the greedy packing no more chunks than it has itself. */
  lemma SegmentCosts(s: Segment, rest: seq<string>, max: nat)
    requires max > 0 && SegmentFits(s, max) && forall p :: p in rest ==> p != []
    ensures Count(0, SourceOf(s) + rest, max) <= |ChunksOf(s)| + Count(0, rest, max)
  {
    hide Grouped, Concat, Pieces;
    match s
    case Together(group) =>
      hide Count;
      assert forall i :: 0 <= i < |rest| ==> rest[i] in rest;
      GroupsAreNotEmpty(group);
      GroupsPackTogether(group, rest, max);
      FullerIsNoBetter(|Grouped(group)|, |Grouped(group)|, rest, max);
    case Split(pieces) =>
      LongPiecesExist(pieces, max);
      FewestPieces(pieces, max);
      assert (SourceOf(s) + rest)[1..] == rest;
  }

  lemma LongPiecesExist(pieces: seq<string>, max: nat)
    requires |Concat(pieces)| > max
    ensures pieces != []
  {
  }

  // --- nothing that is written gets lost ---------------------------------------------------------------

  /** The characters of a text that are not white space. */
  function Ink(s: string): string {
    if s == [] then [] else Ink(s[..|s| - 1]) + if IsSpace(s[|s| - 1]) then [] else [s[|s| - 1]]
  }

  lemma {:induction false} InkOfBoth(s: string, t: string)
    ensures Ink(s + t) == Ink(s) + Ink(t)
  {
    if t == [] {
      assert s + t == s;
    } else {
      InkOfBoth(s, t[..|t| - 1]);
      assert (s + t)[..|s + t| - 1] == s + t[..|t| - 1];
    }
  }

  /** Ink is every character that is not white space, and nothing else. */
  lemma InkOfOne(c: char)
    ensures Ink([c]) == if IsSpace(c) then [] else [c]
  {
    assert [c][..0] == [];
  }

  lemma {:induction false} NoInkInSpace(s: string)
    requires Blank(s)
    ensures Ink(s) == []
  {
    if s != [] {
      assert s[|s| - 1] in s;
      NoInkInSpace(s[..|s| - 1]);
    }
  }

  function InkOf(parts: seq<string>): string {
    if parts == [] then [] else Ink(parts[0]) + InkOf(parts[1..])
  }

  lemma NoInk()
    ensures Ink([]) == [] && InkOf([]) == []
  {
  }

  lemma InkOfFirst(first: string, rest: seq<string>)
    ensures InkOf([first] + rest) == Ink(first) + InkOf(rest)
  {
    hide Ink;
    assert ([first] + rest)[1..] == rest;
  }

  lemma {:induction false} InkOfMore(a: seq<string>, b: seq<string>)
    ensures InkOf(a + b) == InkOf(a) + InkOf(b)
  {
    hide Ink, InkOf;
    NoInk();
    if a == [] {
      assert a + b == b;
    } else {
      InkOfMore(a[1..], b);
      InkOfFirst(a[0], a[1..]);
      InkOfFirst(a[0], a[1..] + b);
      assert a == [a[0]] + a[1..] && a + b == [a[0]] + (a[1..] + b);
    }
  }

  lemma StrippingKeepsInk(s: string)
    ensures Ink(Strip(s)) == Ink(s)
  {
    hide Ink, Blank, StripLeft, StripRight;
    var l := StripLeft(s);
    var head := s[..|s| - |l|];
    assert s == head + l;
    InkOfBoth(head, l);
    NoInkInSpace(head);
    var r := StripRight(l);
    var tail := l[|r|..];
    assert l == r + tail;
    InkOfBoth(r, tail);
    NoInkInSpace(tail);
  }

  lemma {:induction false} SplittingKeepsInk(s: string, current: string)
    ensures InkOf(SplitAtBlankLines(s, current)) == Ink(current) + Ink(s)
    decreases |s|
  {
    hide BlankLine, Ink, Blank, InkOf;
    NoInk();
    if s == [] {
      InkOfFirst(current, []);
      assert [current] + [] == [current];
    } else if BlankLine(s) > 0 {
      var n := BlankLine(s);
      SplittingKeepsInk(s[n..], []);
      InkOfBoth(s[..n], s[n..]);
      assert s == s[..n] + s[n..];
      NoInkInSpace(s[..n]);
      InkOfFirst(current, SplitAtBlankLines(s[n..], []));
    } else {
      SplittingKeepsInk(s[1..], current + [s[0]]);
      InkOfBoth(current, [s[0]]);
      InkOfBoth([s[0]], s[1..]);
      assert s == [s[0]] + s[1..];
    }
  }

  lemma {:induction false} StrippingAllKeepsInk(parts: seq<string>)
    ensures InkOf(StrippedOf(parts)) == InkOf(parts)
  {
    hide Ink, Strip, InkOf;
    NoInk();
    if parts != [] {
      var first, rest := Strip(parts[0]), StrippedOf(parts[1..]);
      StrippingAllKeepsInk(parts[1..]);
      StrippingKeepsInk(parts[0]);
      assert parts == [parts[0]] + parts[1..];
      InkOfFirst(parts[0], parts[1..]);
      InkOfFirst(first, rest);
      assert first == [] ==> StrippedOf(parts) == rest;
    }
  }

  lemma {:induction false} GroupsKeepInk(group: seq<string>)
    ensures Ink(Grouped(group)) == InkOf(group)
  {
    hide Ink, InkOf;
    NoInk();
    if group != [] {
      var init, last := group[..|group| - 1], group[|group| - 1];
      GroupsKeepInk(init);
      assert group == init + [last] && [last] == [last] + [];
      InkOfMore(init, [last]);
      InkOfFirst(last, []);
      InkOfBoth(Grouped(init), GAP);
      InkOfBoth(Grouped(init) + GAP, last);
      GapIsBlank();
      NoInkInSpace(GAP);
    }
  }

  lemma GapIsBlank()
    ensures Blank(GAP)
  {
  }

  lemma {:induction false} PiecesKeepInk(pieces: seq<string>)
    ensures Ink(Concat(pieces)) == InkOf(pieces)
  {
    hide Ink, InkOf;
    NoInk();
    if pieces != [] {
      var init, last := pieces[..|pieces| - 1], pieces[|pieces| - 1];
      PiecesKeepInk(init);
      assert pieces == init + [last] && [last] == [last] + [];
      InkOfMore(init, [last]);
      InkOfFirst(last, []);
      InkOfBoth(Concat(init), last);
    }
  }

  lemma {:induction false} PackingsKeepInk(packing: seq<Segment>)
    ensures InkOf(Chunks(packing)) == InkOf(Sources(packing))
  {
    hide Ink, Grouped, Concat, InkOf;
    NoInk();
    if packing != [] {
      var init, last := packing[..|packing| - 1], packing[|packing| - 1];
      PackingsKeepInk(init);
      InkOfMore(Chunks(init), ChunksOf(last));
      InkOfMore(Sources(init), SourceOf(last));
      match last
      case Together(group) =>
        GroupsKeepInk(group);
        InkOfFirst(Grouped(group), []);
        assert [Grouped(group)] == [Grouped(group)] + [];
      case Split(pieces) =>
        PiecesKeepInk(pieces);
        InkOfFirst(Concat(pieces), []);
        assert [Concat(pieces)] == [Concat(pieces)] + [];
    }
  }

  /** Chunks of a text hold exactly what is written in it, character by character and in order. */
  lemma ChunksHoldTheText(text: string, packing: seq<Segment>)
    requires Sources(packing) == Paragraphs(text)
    ensures InkOf(Chunks(packing)) == Ink(text)
  {
    hide Ink, Sources, Chunks, SplitAtBlankLines, StrippedOf;
    PackingsKeepInk(packing);
    StrippingAllKeepsInk(SplitAtBlankLines(text, []));
    SplittingKeepsInk(text, []);
    NoInkInSpace([]);
  }

  // --- a chunk reads back as its paragraphs --------------------------------------------------------------

  lemma GroupedOneMore(group: seq<string>, p: string)
    requires group != []
    ensures Grouped(group + [p]) == Grouped(group) + "\n" + "" + "\n" + p
  {
    assert (group + [p])[..|group|] == group;
    assert GAP == "\n" + "" + "\n";
    assert Grouped(group) + GAP + p == Grouped(group) + "\n" + "" + "\n" + p;
  }

  /** Paragraphs that were put side by side in a chunk are the paragraphs of the chunk. */
  lemma {:induction false} GroupsReadBack(group: seq<string>)
    requires forall p :: p in group ==> p != [] && Strip(p) == p && !HasBlankLine(p)
    ensures Paragraphs(Grouped(group)) == group
  {
    hide Strip, HasBlankLine, Paragraphs;
    if group == [] {
      NothingToRead();
    } else {
      var init, last := group[..|group| - 1], group[|group| - 1];
      assert group == init + [last] && last in group && forall p :: p in init ==> p in group;
      OneParagraph(last);
      if init != [] {
        GroupsReadBack(init);
        GroupedOneMore(init, last);
        NothingIsBlank();
        ParagraphsDivide(Grouped(init), "", last);
      }
    }
  }

  lemma NothingToRead()
    ensures Paragraphs("") == [] == Paragraphs(Grouped([]))
  {
    StripOfBlank("");
  }

  lemma NothingIsBlank()
    ensures Blank("")
  {
  }

  lemma {:induction false} SegmentsComeFromSources(packing: seq<Segment>, i: nat)
    requires i < |packing|
    ensures forall p :: p in SourceOf(packing[i]) ==> p in Sources(packing)
  {
    hide SourceOf;
    if i < |packing| - 1 {
      SegmentsComeFromSources(packing[..|packing| - 1], i);
    }
  }

  /** Every chunk that holds whole paragraphs of the text reads back as exactly these. */
  lemma ChunksReadBack(text: string, packing: seq<Segment>, i: nat)
    requires Sources(packing) == Paragraphs(text) && i < |packing| && packing[i].Together?
    ensures Paragraphs(Grouped(packing[i].group)) == packing[i].group
  {
    hide Strip, HasBlankLine, Paragraphs, Sources, Grouped;
    SegmentsComeFromSources(packing, i);
    ParagraphsAreClear(text);
    assert SourceOf(packing[i]) == packing[i].group;
    forall p | p in packing[i].group
      ensures p != [] && Strip(p) == p && !HasBlankLine(p)
    {
      assert p in Paragraphs(text);
    }
    GroupsReadBack(packing[i].group);
  }
}
