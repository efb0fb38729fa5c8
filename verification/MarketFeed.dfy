/**
 The order-book feed: it polls the depth of every active pair and broadcasts those whose
 version has changed since it last did.
 */
module MarketFeed {
  import opened MarketDepth
  import opened MatchingModel
  import opened MatchingRuns
  import opened Wrappers

  const DEPTH_LEVELS := 20

  datatype Message = Message(pair: string, depth: Depth)

  /** What was asked about a pair: its depth as it was then, or nothing if it could not be read. */
  datatype Reading = Reading(pair: string, depth: Option<Depth>)

  datatype Feed = Feed(last: map<string, nat>, sent: seq<Message>)
  {
    /** What one answer makes of the feed. */
    function Poll(r: Reading): Feed {
      if r.depth.None? || (r.pair in last && last[r.pair] == r.depth.value.version) then this
      else Feed(last[r.pair := r.depth.value.version], sent + [Message(r.pair, r.depth.value)])
    }

    function PollAll(readings: seq<Reading>): Feed {
      if readings == [] then this else PollAll(readings[..|readings| - 1]).Poll(readings[|readings| - 1])
    }
  }

  class OrderBookFeed {
    var lastVersion: map<string, nat>
    var broadcast: seq<Message>

    constructor ()
      ensures State() == Feed(map[], [])
    {
      lastVersion, broadcast := map[], [];
    }

    function State(): Feed
      reads this
    {
      Feed(lastVersion, broadcast)
    }

    /** One round over the active pairs; each answer is that of its own moment. */
    method Publish(pairIds: seq<string>, answers: seq<Option<Depth>>)
      requires |answers| == |pairIds|
      modifies this
      ensures State() == old(State()).PollAll(seq(|pairIds|, i requires 0 <= i < |pairIds| =>
        Reading(pairIds[i], answers[i])))
    {
      ghost var readings := seq(|pairIds|, i requires 0 <= i < |pairIds| => Reading(pairIds[i], answers[i]));
      var i := 0;
      while i < |pairIds|
        invariant i <= |pairIds| && State() == old(State()).PollAll(readings[..i])
      {
        var pair, answer := pairIds[i], answers[i];
        assert readings[..i + 1][..i] == readings[..i];
        i := i + 1;
        if answer.None? {
          continue;
        }
        var snap := answer.value;
        if pair in lastVersion && lastVersion[pair] == snap.version {
          continue;
        }
        lastVersion := lastVersion[pair := snap.version];
        broadcast := broadcast + [Message(pair, snap)];
      }
      assert readings[..|pairIds|] == readings;
    }
  }

  // ----- the feed beside the engine

  /** The books of the engine, where a pair without a book shows an empty one, and the feed. */
  datatype System = System(books: map<string, Book>, feed: Feed)

  const START := System(map[], Feed(map[], []))

  /** Books may change between any two reads of the feed, those of one round included. */
  datatype Event =
    | Change(pair: string, op: Op)
    | Read(pair: string, readable: bool)

  function ReadingOf(books: map<string, Book>, pair: string, readable: bool): Reading {
    Reading(pair, if readable then Some(Snapshot(BookOf(books, pair), DEPTH_LEVELS)) else None)
  }

  function After(s: System, e: Event): System {
    match e
    case Change(pair, op) => s.(books := s.books[pair := Step(BookOf(s.books, pair), op)])
    case Read(pair, readable) => s.(feed := s.feed.Poll(ReadingOf(s.books, pair, readable)))
  }

  function History(events: seq<Event>): System {
    if events == [] then START else After(History(events[..|events| - 1]), events[|events| - 1])
  }

  /** What the feed was told, read by read. */
  function Readings(events: seq<Event>): seq<Reading> {
    if events == [] then []
    else
      var rest, e := events[..|events| - 1], events[|events| - 1];
      Readings(rest) + if e.Read? then [ReadingOf(History(rest).books, e.pair, e.readable)] else []
  }

  /** So the feed is what its rounds make of those answers. */
  lemma {:induction false} FeedOfReadings(events: seq<Event>)
    ensures History(events).feed == START.feed.PollAll(Readings(events))
    decreases events
  {
    if events != [] {
      var rest, e := events[..|events| - 1], events[|events| - 1];
      FeedOfReadings(rest);
      if e.Read? {
        assert Readings(events) == Readings(rest) + [ReadingOf(History(rest).books, e.pair, e.readable)];
        assert Readings(events)[..|Readings(rest)|] == Readings(rest);
      } else {
        assert Readings(events) == Readings(rest);
      }
    }
  }

  /** The last depth that was broadcast for a pair. */
  function LastSent(sent: seq<Message>, pair: string): Option<Depth> {
    if sent == [] then None
    else if sent[|sent| - 1].pair == pair then Some(sent[|sent| - 1].depth)
    else LastSent(sent[..|sent| - 1], pair)
  }

  /** `b` is what some run makes of `before`. */
  ghost predicate Follows(before: Book, b: Book) {
    exists ops: seq<Op> :: Run(before, ops) == b
  }

  lemma FollowsStep(before: Book, b: Book, op: Op)
    requires Follows(before, b)
    ensures Follows(before, Step(b, op))
  {
    var ops: seq<Op> :| Run(before, ops) == b;
    RunThen(before, ops, op);
  }

  lemma FollowsItself(b: Book)
    ensures Follows(b, b)
  {
    assert Run(b, []) == b;
  }

  lemma FollowsVersion(before: Book, b: Book)
    requires Follows(before, b)
    ensures before.version <= b.version && (before.version == b.version ==> before == b)
  {
    var ops: seq<Op> :| Run(before, ops) == b;
    VersionGrows(before, ops);
    if before.version == b.version {
      SameVersionSameQueues(before, ops);
    }
  }

  /** What was last broadcast for a pair showed its book as it then was, which the present book follows. */
  ghost predicate Shows(books: map<string, Book>, f: Feed, pair: string) {
    match LastSent(f.sent, pair)
    case None => pair !in f.last
    case Some(d) => pair in f.last && exists before: Book ::
      d == Snapshot(before, DEPTH_LEVELS) && f.last[pair] == before.version && Follows(before, BookOf(books, pair))
  }

  lemma ShowsChange(s: System, e: Event, pair: string)
    requires e.Change? && Shows(s.books, s.feed, pair)
    ensures Shows(After(s, e).books, s.feed, pair)
  {
    if LastSent(s.feed.sent, pair).Some? && pair == e.pair {
      var before: Book :| LastSent(s.feed.sent, pair).value == Snapshot(before, DEPTH_LEVELS) &&
        s.feed.last[pair] == before.version && Follows(before, BookOf(s.books, pair));
      FollowsStep(before, BookOf(s.books, pair), e.op);
    }
  }

  /** One read keeps every pair's record, and what was last broadcast for the pair that is read is its present depth. */
  lemma ReadShows(s: System, e: Event, pair: string)
    requires e.Read? && Shows(s.books, s.feed, pair)
    ensures Shows(s.books, After(s, e).feed, pair)
    ensures LastSent(After(s, e).feed.sent, pair) ==
            if e == Read(pair, true) then Some(Snapshot(BookOf(s.books, pair), DEPTH_LEVELS))
            else LastSent(s.feed.sent, pair)
  {
    var f, f' := s.feed, After(s, e).feed;
    assert f'.sent != f.sent ==> f'.sent[..|f'.sent| - 1] == f.sent;
    if e == Read(pair, true) {
      if LastSent(f.sent, pair).Some? {
        var before: Book :| LastSent(f.sent, pair).value == Snapshot(before, DEPTH_LEVELS) &&
          f.last[pair] == before.version && Follows(before, BookOf(s.books, pair));
        FollowsVersion(before, BookOf(s.books, pair));
      }
      FollowsItself(BookOf(s.books, pair));
    }
  }

  lemma {:induction false} AlwaysShows(events: seq<Event>, pair: string)
    ensures Shows(History(events).books, History(events).feed, pair)
    decreases events
  {
    if events != [] {
      var s, e := History(events[..|events| - 1]), events[|events| - 1];
      AlwaysShows(events[..|events| - 1], pair);
      if e.Change? {
        ShowsChange(s, e, pair);
      } else {
        ReadShows(s, e, pair);
      }
    }
  }

  /** Only a read of a pair changes what was last broadcast for it. */
  lemma LastSentStep(events: seq<Event>, e: Event, pair: string)
    ensures LastSent(History(events + [e]).feed.sent, pair) ==
            if e == Read(pair, true) then Some(Snapshot(BookOf(History(events).books, pair), DEPTH_LEVELS))
            else LastSent(History(events).feed.sent, pair)
  {
    hide Snapshot;
    hide Shows;
    hide LastSent;
    AlwaysShows(events, pair);
    assert (events + [e])[..|events|] == events;
    if e.Read? {
      ReadShows(History(events), e, pair);
    }
  }

  /**
   However the books change before and after, until a pair is read again what was last broadcast
   for it is its depth at the moment of its last read.
   */
  lemma {:induction false} BroadcastIsCurrent(events: seq<Event>, pair: string, later: seq<Event>)
    requires forall i :: 0 <= i < |later| ==> later[i] != Read(pair, true)
    ensures LastSent(History(events + [Read(pair, true)] + later).feed.sent, pair) ==
            Some(Snapshot(BookOf(History(events).books, pair), 20))
    decreases later
  {
    hide Snapshot;
    hide LastSent;
    hide History;
    if later == [] {
      LastSentStep(events, Read(pair, true), pair);
      assert events + [Read(pair, true)] + later == events + [Read(pair, true)];
    } else {
      var rest, e := later[..|later| - 1], later[|later| - 1];
      BroadcastIsCurrent(events, pair, rest);
      LastSentStep(events + [Read(pair, true)] + rest, e, pair);
      assert events + [Read(pair, true)] + later == events + [Read(pair, true)] + rest + [e];
    }
  }

  /** Versions only grow: along what was sent for a pair, and from there to its book. */
  ghost predicate Rising(books: map<string, Book>, f: Feed) {
    && (forall i, j :: 0 <= i < j < |f.sent| && f.sent[i].pair == f.sent[j].pair ==>
          f.sent[i].depth.version < f.sent[j].depth.version)
    && (forall i :: 0 <= i < |f.sent| ==> f.sent[i].pair in f.last && f.sent[i].depth.version <= f.last[f.sent[i].pair])
    && (forall p :: p in f.last ==> f.last[p] <= BookOf(books, p).version)
  }

  /** The feed never sends the same state of a book twice: the versions it sends for a pair strictly increase. */
  lemma {:induction false} NothingSentTwice(events: seq<Event>)
    ensures Rising(History(events).books, History(events).feed)
    decreases events
  {
    if events != [] {
      NothingSentTwice(events[..|events| - 1]);
    }
  }
}
