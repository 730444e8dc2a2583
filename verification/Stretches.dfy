/** What happened in a stretch of a history: what the operator was heard to say, and what
    development wrote. */
module Stretches {
  import opened Protocol

  /** What development wrote, in order. */
  function DevelopmentOf(events: seq<Event>): seq<Event> {
    if events == [] then []
    else
      var last := events[|events| - 1];
      DevelopmentOf(events[..|events| - 1]) + if last.DevWrote? then [last] else []
  }

  /** What the operator said, in order. */
  function RepliesOf(events: seq<Event>): seq<string> {
    if events == [] then []
    else
      var last := events[|events| - 1];
      RepliesOf(events[..|events| - 1]) + if last.Replied? then [last.reply] else []
  }

  lemma {:induction false} OfBoth(a: seq<Event>, b: seq<Event>)
    ensures DevelopmentOf(a + b) == DevelopmentOf(a) + DevelopmentOf(b)
    ensures RepliesOf(a + b) == RepliesOf(a) + RepliesOf(b)
  {
    if b == [] {
      assert a + b == a;
    } else {
      OfBoth(a, b[..|b| - 1]);
      assert (a + b)[..|a + b| - 1] == a + b[..|b| - 1];
    }
  }

  function Since(h: History, g: History): seq<Event> {
    if |h.events| <= |g.events| then g.events[|h.events|..] else []
  }

  function Developed(h: History, g: History): seq<Event> {
    DevelopmentOf(Since(h, g))
  }

  function Heard(h: History, g: History): seq<string> {
    RepliesOf(Since(h, g))
  }

  /** From the one history to the other by legal events: the operator said everything that stood
      ready before and not after, development wrote these events, all in order. */
  ghost predicate Stretch(h: History, g: History, before: seq<string>, after: seq<string>, wrote: seq<Event>) {
    Continues(h, g) && Heard(h, g) + after == before && Developed(h, g) == wrote
  }

  lemma StretchItself(h: History, replies: seq<string>)
    requires h.Recorded()
    ensures Stretch(h, h, replies, replies, [])
  {
    ContinuesItself(h);
    assert Since(h, h) == [];
    assert [] + replies == replies;
  }

  /** One legal event more. */
  lemma StepStretch(h: History, e: Event, after: seq<string>)
    requires h.Recorded() && Continues(h, h.Extended(e))
    ensures Stretch(h, h.Extended(e), if e.Replied? then [e.reply] + after else after, after,
                    if e.DevWrote? then [e] else [])
  {
    hide Apply, IsLegal;
    assert Since(h, h.Extended(e)) == [e];
    assert [e][..0] == [];
    assert RepliesOf([e]) == if e.Replied? then [e.reply] else [];
    assert DevelopmentOf([e]) == if e.DevWrote? then [e] else [];
    assert [] + after == after;
  }

  lemma BothSince(h: History, g: History, f: History)
    requires Continues(h, g) && Continues(g, f)
    ensures Since(h, f) == Since(h, g) + Since(g, f)
  {
    hide IsLegal, Apply, LegalFrom;
  }

  lemma StretchOn(h: History, g: History, f: History,
                  a: seq<string>, b: seq<string>, c: seq<string>, u: seq<Event>, v: seq<Event>)
    requires Stretch(h, g, a, b, u) && Stretch(g, f, b, c, v)
    ensures Stretch(h, f, a, c, u + v)
  {
    hide Continues, Since;
    ContinuesIsTransitive(h, g, f);
    BothSince(h, g, f);
    OfBoth(Since(h, g), Since(g, f));
  }

  /** Then something in which nobody was asked. */
  lemma ThenUnasked(h: History, g: History, f: History, a: seq<string>, b: seq<string>, u: seq<Event>, v: seq<Event>)
    requires Stretch(h, g, a, b, u) && Stretch(g, f, [], [], v)
    ensures Stretch(h, f, a, b, u + v)
  {
    hide Continues, Since, Developed;
    assert Heard(g, f) == [] && [] + b == b;
    StretchOn(h, g, f, a, b, b, u, v);
  }

  /** Then something in which nobody was asked and development wrote nothing. */
  lemma ThenQuiet(h: History, g: History, f: History, a: seq<string>, b: seq<string>, u: seq<Event>)
    requires Stretch(h, g, a, b, u) && Stretch(g, f, [], [], [])
    ensures Stretch(h, f, a, b, u)
  {
    hide Continues, Since, Heard, Developed;
    ThenUnasked(h, g, f, a, b, u, []);
    assert u + [] == u;
  }

  /** Two conversations in a row. */
  lemma ThenTalk(h: History, g: History, f: History, a: seq<string>, b: seq<string>, c: seq<string>)
    requires Stretch(h, g, a, b, []) && Stretch(g, f, b, c, [])
    ensures Stretch(h, f, a, c, [])
  {
    hide Continues, Since, Heard, Developed;
    StretchOn(h, g, f, a, b, c, [], []);
  }

  /** What stands ready afterwards is the rest of what stood ready before. */
  lemma TheRestIsReady(h: History, g: History, before: seq<string>, after: seq<string>, wrote: seq<Event>)
    requires Stretch(h, g, before, after, wrote)
    ensures |after| <= |before| && after == before[|before| - |after|..]
  {
    hide Heard;
  }

  lemma NothingSaid(h: History, g: History, before: seq<string>, after: seq<string>, wrote: seq<Event>)
    requires Stretch(h, g, before, after, wrote) && |before| <= |after|
    ensures after == before && Heard(h, g) == []
  {
    hide Heard;
  }

  lemma StretchContinues(h: History, g: History, before: seq<string>, after: seq<string>, wrote: seq<Event>)
    requires Stretch(h, g, before, after, wrote)
    ensures Continues(h, g)
  {
  }

  /** Development wrote nothing between the two. */
  ghost predicate NoDevelopment(h: History, g: History) {
    forall i :: |h.events| <= i < |g.events| ==> !g.events[i].DevWrote?
  }

  lemma {:induction false} NoDevelopmentOf(events: seq<Event>)
    requires DevelopmentOf(events) == []
    ensures forall i :: 0 <= i < |events| ==> !events[i].DevWrote?
  {
    if events != [] {
      var front := events[..|events| - 1];
      NoDevelopmentOf(front);
      assert forall i :: 0 <= i < |front| ==> events[i] == front[i];
    }
  }

  lemma NothingDeveloped(h: History, g: History)
    requires Continues(h, g) && Developed(h, g) == []
    ensures NoDevelopment(h, g)
  {
    hide IsLegal, Apply, LegalFrom;
    NoDevelopmentOf(Since(h, g));
    assert forall i :: |h.events| <= i < |g.events| ==> g.events[i] == Since(h, g)[i - |h.events|];
  }
}
