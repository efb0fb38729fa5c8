/**
 Many callers of the matching engine at once. The map of books is guarded by a read/write lock,
 and looked at twice before a book is created; each book is guarded by a lock of its own. What is
 done under a lock takes several steps, between which the others go on: that they do no harm there
 is proved of the locks.
 */
module EngineSteps {
  import opened MarketDepth
  import opened MatchingModel
  import opened MatchingRuns
  import opened Wrappers

  datatype Request = Submit(order: Ord) | CancelById(id: string) | ReadDepth(maxLevels: int)

  datatype Response = Result(placed: Placed) | Removed(order: Option<Ord>) | Levels(depth: Depth)

  function BookAfter(b: Book, r: Request): Book {
    match r
    case Submit(o) => Place(b, o).book
    case CancelById(id) => Cancel(b, id).book
    case ReadDepth(_) => b
  }

  function ResponseOf(b: Book, r: Request): Response {
    match r
    case Submit(o) => Result(Place(b, o))
    case CancelById(id) => Removed(Cancel(b, id).order)
    case ReadDepth(max) => Levels(Snapshot(b, max))
  }

  /** Where a caller is. It has got hold of the book `ref`, and has read it as `seen`. */
  datatype Phase =
    | Calling
    | Reading
    | Missed
    | Writing
    | Creating(ref: nat)
    | Holding(ref: nat)
    | Working(ref: nat, seen: Book)
    | Answered(response: Response)
  {
    /** Whether the caller holds the lock of the map to itself. */
    predicate Writes() { Writing? || Creating? }

    /** Whether the caller holds the lock of this book. */
    predicate WorksOn(book: nat) { Working? && ref == book }
  }

  datatype Caller = Caller(pair: string, request: Request, phase: Phase)

  /** One operation as it was carried out on a book. */
  datatype Done = Done(caller: nat, pair: string, request: Request, response: Response)

  /**
   The books in the heap, by reference; the map from pairs to books; the callers, whose phases say
   which locks are held; and, for the record, what was done in which order.
   */
  datatype State = State(heap: seq<Book>, books: map<string, nat>, callers: seq<Caller>, log: seq<Done>)
  {
    predicate MapRead() { exists e :: 0 <= e < |callers| && callers[e].phase == Reading }

    predicate MapLocked() { exists e :: 0 <= e < |callers| && callers[e].phase.Writes() }

    predicate BookLocked(ref: nat) { exists e :: 0 <= e < |callers| && callers[e].phase.WorksOn(ref) }

    function Set(c: nat, phase: Phase): State
      requires c < |callers|
    {
      this.(callers := callers[c := callers[c].(phase := phase)])
    }
  }

  /**
   The next step of a caller, if no lock is in its way. Under the lock of the map it looks again and
   makes a book in one step, and files the book in another; under the lock of a book it reads the
   book in one step, and writes back what it makes of it in another.
   */
  function Next(s: State, c: nat): Option<State>
    requires c < |s.callers|
  {
    var x := s.callers[c];
    match x.phase
    case Calling =>
      if s.MapLocked() then None else Some(s.Set(c, Reading))
    case Reading =>
      Some(s.Set(c, if x.pair in s.books then Holding(s.books[x.pair]) else Missed))
    case Missed =>
      if s.MapLocked() || s.MapRead() then None else Some(s.Set(c, Writing))
    case Writing =>
      if x.pair in s.books then Some(s.Set(c, Holding(s.books[x.pair])))
      else Some(s.Set(c, Creating(|s.heap|)).(heap := s.heap + [EMPTY]))
    case Creating(ref) =>
      Some(s.Set(c, Holding(ref)).(books := s.books[x.pair := ref]))
    case Holding(ref) =>
      if s.BookLocked(ref) || ref >= |s.heap| then None else Some(s.Set(c, Working(ref, s.heap[ref])))
    case Working(ref, seen) =>
      if ref >= |s.heap| then None
      else
        var response := ResponseOf(seen, x.request);
        Some(s.Set(c, Answered(response)).(heap := s.heap[ref := BookAfter(seen, x.request)],
                                           log := s.log + [Done(c, x.pair, x.request, response)]))
    case Answered(_) => None
  }

  /** What a serial run of the recorded operations on one pair makes of its book. */
  function Replay(log: seq<Done>, pair: string): Book {
    if log == [] then EMPTY
    else
      var d := log[|log| - 1];
      if d.pair == pair then BookAfter(Replay(log[..|log| - 1], pair), d.request) else Replay(log[..|log| - 1], pair)
  }

  /** Every recorded response is the one the serial run gives at that point. */
  ghost predicate Linear(log: seq<Done>) {
    forall i :: 0 <= i < |log| ==> log[i].response == ResponseOf(Replay(log[..i], log[i].pair), log[i].request)
  }

  ghost predicate Mapped(books: map<string, nat>, ref: nat) {
    exists p :: p in books && books[p] == ref
  }

  ghost predicate CallerOk(s: State, c: nat)
    requires c < |s.callers|
  {
    var x := s.callers[c];
    match x.phase
    case Creating(ref) => x.pair !in s.books && ref < |s.heap| && s.heap[ref] == EMPTY && !Mapped(s.books, ref)
    case Holding(ref) => x.pair in s.books && s.books[x.pair] == ref
    case Working(ref, seen) => x.pair in s.books && s.books[x.pair] == ref && ref < |s.heap| && s.heap[ref] == seen
    case Answered(r) => exists i :: 0 <= i < |s.log| && s.log[i] == Done(c, x.pair, x.request, r)
    case _ => true
  }

  /** Phases that two callers may be in at once. */
  predicate Compatible(x: Phase, y: Phase) {
    && !(x.Writes() && (y.Writes() || y.Reading?))
    && !(x.Working? && y.WorksOn(x.ref))
  }

  /** One caller alone writes the map, and nobody reads it then; one caller alone works on a book. */
  ghost predicate Exclusive(s: State) {
    forall c, e :: 0 <= c < |s.callers| && 0 <= e < |s.callers| && c != e ==>
      Compatible(s.callers[c].phase, s.callers[e].phase)
  }

  /** Some caller has made this book, and is about to file it. */
  ghost predicate BeingMade(s: State, ref: nat) {
    exists c :: 0 <= c < |s.callers| && s.callers[c].phase == Creating(ref)
  }

  /** One book for each pair in the map; each is what the serial run of its pair makes of it. */
  ghost predicate BooksOk(s: State) {
    && (forall p :: p in s.books ==> s.books[p] < |s.heap| && s.heap[s.books[p]] == Replay(s.log, p))
    && (forall p, q :: p in s.books && q in s.books && p != q ==> s.books[p] != s.books[q])
    && (forall p :: p !in s.books ==> Replay(s.log, p) == EMPTY)
  }

  /** And no other book, but for one that is being made. */
  ghost predicate Inv(s: State) {
    && BooksOk(s) && Exclusive(s) && Linear(s.log)
    && (forall ref :: 0 <= ref < |s.heap| ==> Mapped(s.books, ref) || BeingMade(s, ref))
    && (forall c :: 0 <= c < |s.callers| ==> CallerOk(s, c))
  }

  lemma ReplayNext(log: seq<Done>, d: Done, pair: string)
    ensures Replay(log + [d], pair) == if d.pair == pair then BookAfter(Replay(log, pair), d.request)
      else Replay(log, pair)
  {
    assert (log + [d])[..|log|] == log;
  }

  lemma LinearNext(log: seq<Done>, d: Done)
    requires Linear(log) && d.response == ResponseOf(Replay(log, d.pair), d.request)
    ensures Linear(log + [d])
  {
    var all := log + [d];
    forall i | 0 <= i < |all| ensures all[i].response == ResponseOf(Replay(all[..i], all[i].pair), all[i].request) {
      assert all[..i] == log[..i];
      assert i == |log| ==> log[..i] == log;
    }
  }

  /** The locks keep apart what they are there to keep apart. */
  lemma ExclusiveNext(s: State, c: nat)
    requires Exclusive(s) && c < |s.callers| && Next(s, c).Some?
    ensures Exclusive(Next(s, c).value)
  {
    hide BookAfter;
    hide ResponseOf;
    var callers, phase := s.callers, Next(s, c).value.callers[c].phase;
    assert Next(s, c).value.callers == callers[c := callers[c].(phase := phase)];
    forall e | 0 <= e < |callers| && e != c
      ensures Compatible(phase, callers[e].phase) && Compatible(callers[e].phase, phase)
    {
      assert Compatible(callers[c].phase, callers[e].phase) && Compatible(callers[e].phase, callers[c].phase);
    }
  }

  /** A step that writes back what a caller has made of the book it had read. */
  lemma WorkInv(s: State, c: nat)
    requires Inv(s) && c < |s.callers| && s.callers[c].phase.Working? && Next(s, c).Some?
    ensures Inv(Next(s, c).value)
  {
    hide BookAfter;
    hide ResponseOf;
    hide Replay;
    hide Linear;
    hide Mapped;
    var x, s' := s.callers[c], Next(s, c).value;
    var d := s'.log[|s.log|];
    assert CallerOk(s, c);
    ExclusiveNext(s, c);
    LinearNext(s.log, d);
    forall p
      ensures Replay(s'.log, p) == if p == x.pair then BookAfter(Replay(s.log, p), x.request) else Replay(s.log, p)
    {
      ReplayNext(s.log, d, p);
    }
    forall ref | 0 <= ref < |s'.heap| ensures Mapped(s'.books, ref) || BeingMade(s', ref) {
      if BeingMade(s, ref) { StillMade(s, c, ref); }
    }
    forall e | 0 <= e < |s'.callers| ensures CallerOk(s', e) { WorkCallers(s, c, e); }
  }

  lemma StillMade(s: State, c: nat, ref: nat)
    requires c < |s.callers| && Next(s, c).Some? && !s.callers[c].phase.Creating? && BeingMade(s, ref)
    ensures BeingMade(Next(s, c).value, ref)
  {
    hide BookAfter;
    hide ResponseOf;
    var e :| 0 <= e < |s.callers| && s.callers[e].phase == Creating(ref);
    assert Next(s, c).value.callers[e] == s.callers[e];
  }
  lemma WorkCallers(s: State, c: nat, e: nat)
    requires Exclusive(s) && c < |s.callers| && s.callers[c].phase.Working? && Next(s, c).Some?
    requires e < |s.callers| && CallerOk(s, c) && CallerOk(s, e)
    ensures CallerOk(Next(s, c).value, e)
  {
    hide BookAfter;
    hide ResponseOf;
    var x, s' := s.callers[c], Next(s, c).value;
    var d := s'.log[|s.log|];
    if e == c {
      assert s'.log[|s.log|] == d;
    } else {
      assert Compatible(x.phase, s.callers[e].phase);
      if s.callers[e].phase.Answered? {
        var i :| 0 <= i < |s.log| &&
          s.log[i] == Done(e, s.callers[e].pair, s.callers[e].request, s.callers[e].phase.response);
        assert s'.log[i] == s.log[i];
      }
    }
  }

  /** A step that makes a book for a pair that has none. */
  lemma MakeInv(s: State, c: nat)
    requires Inv(s) && c < |s.callers| && s.callers[c].phase.Writing? && s.callers[c].pair !in s.books
    ensures Inv(Next(s, c).value)
  {
    hide Replay;
    hide Linear;
    hide Mapped;
    var s' := Next(s, c).value;
    ExclusiveNext(s, c);
    forall ref | 0 <= ref < |s'.heap| ensures Mapped(s'.books, ref) || BeingMade(s', ref) {
      if ref == |s.heap| {
        assert s'.callers[c].phase == Creating(ref);
      } else if BeingMade(s, ref) {
        StillMade(s, c, ref);
      }
    }
    assert !Mapped(s.books, |s.heap|) by { Unmapped(s); }
    forall e | 0 <= e < |s'.callers| ensures CallerOk(s', e) {
      assert CallerOk(s, e);
    }
  }

  lemma Unmapped(s: State)
    requires BooksOk(s)
    ensures !Mapped(s.books, |s.heap|)
  {
  }

  /** A step that files a new book: no caller has filed another one meanwhile. */
  lemma FileInv(s: State, c: nat)
    requires Inv(s) && c < |s.callers| && s.callers[c].phase.Creating?
    ensures Inv(Next(s, c).value)
  {
    hide Replay;
    hide Linear;
    var x, s' := s.callers[c], Next(s, c).value;
    ExclusiveNext(s, c);
    assert CallerOk(s, c);
    forall ref | 0 <= ref < |s'.heap| ensures Mapped(s'.books, ref) || BeingMade(s', ref) { Filed(s, c, ref); }
    forall e | 0 <= e < |s'.callers| ensures CallerOk(s', e) {
      assert CallerOk(s, e);
      assert e != c ==> Compatible(x.phase, s.callers[e].phase);
    }
  }

  lemma Filed(s: State, c: nat, ref: nat)
    requires c < |s.callers| && s.callers[c].phase.Creating? && s.callers[c].pair !in s.books
    requires Mapped(s.books, ref) || BeingMade(s, ref)
    ensures var s' := Next(s, c).value; Mapped(s'.books, ref) || BeingMade(s', ref)
  {
    var s' := Next(s, c).value;
    if Mapped(s.books, ref) {
      var p :| p in s.books && s.books[p] == ref;
      assert p in s'.books && s'.books[p] == ref;
    } else {
      var e :| 0 <= e < |s.callers| && s.callers[e].phase == Creating(ref);
      if e == c {
        assert s'.books[s.callers[c].pair] == ref;
      } else {
        assert s'.callers[e] == s.callers[e];
      }
    }
  }

  /** A step that only takes or gives up a lock, looks into the map, or reads a book. */
  predicate Looks(s: State, c: nat)
    requires c < |s.callers|
  {
    && !s.callers[c].phase.Working? && !s.callers[c].phase.Creating? && Next(s, c).Some?
    && (s.callers[c].phase.Writing? ==> s.callers[c].pair in s.books)
  }

  lemma LookInv(s: State, c: nat)
    requires Inv(s) && c < |s.callers| && Looks(s, c)
    ensures Inv(Next(s, c).value)
  {
    hide BookAfter;
    hide ResponseOf;
    hide Replay;
    hide Linear;
    hide Mapped;
    hide CallerOk;
    hide Exclusive;
    hide BeingMade;
    hide Next;
    var s' := Next(s, c).value;
    LookedOnly(s, c);
    ExclusiveNext(s, c);
    forall ref | 0 <= ref < |s'.heap| ensures Mapped(s'.books, ref) || BeingMade(s', ref) {
      if BeingMade(s, ref) { StillMade(s, c, ref); }
    }
    forall e | 0 <= e < |s'.callers| ensures CallerOk(s', e) {
      CallerLooked(s, c, e);
    }
  }

  lemma LookedOnly(s: State, c: nat)
    requires c < |s.callers| && Looks(s, c)
    ensures var s' := Next(s, c).value;
      s'.heap == s.heap && s'.books == s.books && s'.log == s.log && |s'.callers| == |s.callers|
  {
  }

  lemma CallerLooked(s: State, c: nat, e: nat)
    requires c < |s.callers| && Looks(s, c)
    requires e < |s.callers| && CallerOk(s, c) && CallerOk(s, e)
    ensures CallerOk(Next(s, c).value, e)
  {
    hide Mapped;
    LookedOnly(s, c);
  }

  /** Every step keeps the locks apart, one book a pair, and each book as the serial run leaves it. */
  lemma NextInv(s: State, c: nat)
    requires Inv(s) && c < |s.callers| && Next(s, c).Some?
    ensures Inv(Next(s, c).value)
  {
    hide Inv;
    var x := s.callers[c];
    if x.phase.Working? {
      WorkInv(s, c);
    } else if x.phase.Creating? {
      FileInv(s, c);
    } else if x.phase.Writing? && x.pair !in s.books {
      MakeInv(s, c);
    } else {
      LookInv(s, c);
    }
  }

  // ----- runs

  function RunOf(s: State, schedule: seq<nat>): State
    decreases schedule
  {
    if schedule == [] then s
    else if schedule[0] < |s.callers| && Next(s, schedule[0]).Some? then
      RunOf(Next(s, schedule[0]).value, schedule[1..])
    else RunOf(s, schedule[1..])
  }

  function Start(callers: seq<Caller>): State { State([], map[], callers, []) }

  lemma NeverReplaced(s: State, c: nat)
    requires Inv(s) && c < |s.callers| && Next(s, c).Some?
    ensures var s' := Next(s, c).value;
      && (forall p :: p in s.books ==> p in s'.books && s'.books[p] == s.books[p])
      && s.log <= s'.log && |s'.callers| == |s.callers|
  {
    hide BookAfter;
    hide ResponseOf;
    assert CallerOk(s, c);
  }

  lemma StartInv(callers: seq<Caller>)
    requires forall e :: 0 <= e < |callers| ==> callers[e].phase == Calling
    ensures Inv(Start(callers)) && Once(Start(callers))
  {
  }

  /** In every interleaving there is one book a pair, it is never replaced, and nothing done is undone. */
  lemma {:induction false} RunInv(s: State, schedule: seq<nat>)
    requires Inv(s)
    ensures Inv(RunOf(s, schedule))
    ensures forall p :: p in s.books ==> p in RunOf(s, schedule).books && RunOf(s, schedule).books[p] == s.books[p]
    ensures s.log <= RunOf(s, schedule).log && |RunOf(s, schedule).callers| == |s.callers|
    decreases schedule
  {
    hide Inv;
    if schedule != [] {
      if schedule[0] < |s.callers| && Next(s, schedule[0]).Some? {
        NextInv(s, schedule[0]);
        NeverReplaced(s, schedule[0]);
        RunInv(Next(s, schedule[0]).value, schedule[1..]);
      } else {
        RunInv(s, schedule[1..]);
      }
    }
  }

  /** From the start, every answer is the one a serial run gives at the moment the operation was carried out. */
  lemma AnswersAreSerial(callers: seq<Caller>, schedule: seq<nat>, c: nat)
    requires forall e :: 0 <= e < |callers| ==> callers[e].phase == Calling
    requires var s := RunOf(Start(callers), schedule); c < |s.callers| && s.callers[c].phase.Answered?
    ensures var s := RunOf(Start(callers), schedule);
      exists i :: 0 <= i < |s.log| && s.log[i].caller == c && s.log[i].pair == s.callers[c].pair &&
        s.log[i].request == s.callers[c].request &&
        s.callers[c].phase.response == ResponseOf(Replay(s.log[..i], s.callers[c].pair), s.callers[c].request) &&
        var b := Run(EMPTY, OpsOf(s.log[..i], s.callers[c].pair));
        match s.callers[c].request
        case Submit(o) => s.callers[c].phase.response == Result(Place(b, o))
        case CancelById(id) => s.callers[c].phase.response == Removed(Cancel(b, id).order)
        case ReadDepth(max) => s.callers[c].phase.response == Levels(Snapshot(b, max))
  {
    RunInv(Start(callers), schedule);
    var s := RunOf(Start(callers), schedule);
    assert CallerOk(s, c);
    var i :| 0 <= i < |s.log| &&
      s.log[i] == Done(c, s.callers[c].pair, s.callers[c].request, s.callers[c].phase.response);
    LinearAt(s.log, i);
    ReplayIsRun(s.log[..i], s.callers[c].pair);
  }

  /** From the start, one caller alone writes the map and nobody reads it then, and one alone works on a book. */
  lemma LocksExclude(callers: seq<Caller>, schedule: seq<nat>, c: nat, e: nat)
    requires forall i :: 0 <= i < |callers| ==> callers[i].phase == Calling
    requires c < |callers| && e < |callers| && c != e
    ensures var s := RunOf(Start(callers), schedule);
      && |s.callers| == |callers|
      && var x, y := s.callers[c], s.callers[e];
      && (x.phase.Writes() ==> !y.phase.Writes() && !y.phase.Reading?)
      && (x.phase.Working? && y.phase.Working? ==> x.phase.ref != y.phase.ref && x.pair != y.pair)
  {
    RunInv(Start(callers), schedule);
    var s := RunOf(Start(callers), schedule);
    assert CallerOk(s, c) && CallerOk(s, e);
    assert Compatible(s.callers[c].phase, s.callers[e].phase);
  }

  lemma LinearAt(log: seq<Done>, i: nat)
    requires Linear(log) && i < |log|
    ensures log[i].response == ResponseOf(Replay(log[..i], log[i].pair), log[i].request)
  {
  }

  /** As long as some caller has no answer, some caller can go on: the locks never block all of them. */
  lemma SomeoneGoesOn(s: State, c: nat) returns (e: nat)
    requires Inv(s) && c < |s.callers| && !s.callers[c].phase.Answered?
    ensures e < |s.callers| && Next(s, e).Some?
  {
    assert CallerOk(s, c);
    if Next(s, c).Some? {
      return c;
    }
    e :| 0 <= e < |s.callers| &&
      (s.callers[e].phase.Writes() || s.callers[e].phase.Reading? || s.callers[e].phase.Working?);
    assert CallerOk(s, e);
  }

  /** How many steps a caller has still to take, at most. */
  function StepsLeft(phase: Phase): nat {
    match phase
    case Calling => 7
    case Reading => 6
    case Missed => 5
    case Writing => 4
    case Creating(_) => 3
    case Holding(_) => 2
    case Working(_, _) => 1
    case Answered(_) => 0
  }

  function Left(callers: seq<Caller>): nat {
    if callers == [] then 0 else StepsLeft(callers[0].phase) + Left(callers[1..])
  }

  lemma {:induction false} LeftUpdate(callers: seq<Caller>, c: nat, x: Caller)
    requires c < |callers|
    ensures Left(callers[c := x]) == Left(callers) - StepsLeft(callers[c].phase) + StepsLeft(x.phase)
    decreases callers
  {
    hide StepsLeft;
    if c > 0 {
      assert callers[c := x][1..] == callers[1..][c - 1 := x];
      LeftUpdate(callers[1..], c - 1, x);
    } else {
      assert callers[c := x][1..] == callers[1..];
    }
  }

  lemma StepLeft(s: State, c: nat)
    requires c < |s.callers| && Next(s, c).Some?
    ensures Left(Next(s, c).value.callers) < Left(s.callers) && |Next(s, c).value.callers| == |s.callers|
  {
    hide BookAfter;
    hide ResponseOf;
    LeftUpdate(s.callers, c, Next(s, c).value.callers[c]);
  }

  lemma {:induction false} LeftBounds(callers: seq<Caller>)
    ensures Left(callers) <= 7 * |callers|
    ensures Left(callers) == 0 <==> forall c :: 0 <= c < |callers| ==> callers[c].phase.Answered?
  {
    if callers != [] {
      LeftBounds(callers[1..]);
      assert forall c :: 0 < c < |callers| ==> callers[c] == callers[1..][c - 1];
    }
  }

  /** How many turns of a schedule are steps, and not waits or turns of callers that have their answer. */
  function Steps(s: State, schedule: seq<nat>): nat
    decreases schedule
  {
    if schedule == [] then 0
    else if schedule[0] < |s.callers| && Next(s, schedule[0]).Some? then
      1 + Steps(Next(s, schedule[0]).value, schedule[1..])
    else Steps(s, schedule[1..])
  }

  /** No run takes more than seven steps a caller, and nothing is left to do exactly when all have their answers. */
  lemma {:induction false} StepsRunOut(s: State, schedule: seq<nat>)
    ensures var s' := RunOf(s, schedule);
      && Steps(s, schedule) <= Left(s.callers) - Left(s'.callers) <= 7 * |s.callers|
      && |s'.callers| == |s.callers|
      && (Left(s'.callers) == 0 <==> forall c :: 0 <= c < |s'.callers| ==> s'.callers[c].phase.Answered?)
    decreases schedule
  {
    hide Next;
    LeftBounds(s.callers);
    if schedule != [] {
      if schedule[0] < |s.callers| && Next(s, schedule[0]).Some? {
        StepLeft(s, schedule[0]);
        LeftBounds(Next(s, schedule[0]).value.callers);
        StepsRunOut(Next(s, schedule[0]).value, schedule[1..]);
      } else {
        StepsRunOut(s, schedule[1..]);
      }
    }
  }

  /** The serial run of a pair is a run of its book: reading depth aside, its operations in order. */
  function OpsOf(log: seq<Done>, pair: string): seq<Op> {
    if log == [] then []
    else
      var d := log[|log| - 1];
      OpsOf(log[..|log| - 1], pair) +
      if d.pair != pair then []
      else match d.request
        case Submit(o) => [PlaceOp(o)]
        case CancelById(id) => [CancelOp(id)]
        case ReadDepth(_) => []
  }

  lemma {:induction false} ReplayIsRun(log: seq<Done>, pair: string)
    ensures Replay(log, pair) == Run(EMPTY, OpsOf(log, pair))
    decreases log
  {
    if log != [] {
      var d, rest := log[|log| - 1], log[..|log| - 1];
      ReplayIsRun(rest, pair);
      if d.pair == pair {
        match d.request
        case Submit(o) => RunThen(EMPTY, OpsOf(rest, pair), PlaceOp(o));
        case CancelById(id) => RunThen(EMPTY, OpsOf(rest, pair), CancelOp(id));
        case ReadDepth(_) => assert OpsOf(log, pair) == OpsOf(rest, pair);
      } else {
        assert OpsOf(log, pair) == OpsOf(rest, pair);
      }
    }
  }

  /**
   From the start: one book in the heap for each pair in the map, which is what a serial run of its
   pair's operations leaves, and no other book but one that is being made.
   */
  lemma OneBookPerPair(callers: seq<Caller>, schedule: seq<nat>)
    requires forall e :: 0 <= e < |callers| ==> callers[e].phase == Calling
    ensures var s := RunOf(Start(callers), schedule);
      && (forall p :: p in s.books ==> s.books[p] < |s.heap| && s.heap[s.books[p]] == Run(EMPTY, OpsOf(s.log, p)))
      && (forall p, q :: p in s.books && q in s.books && s.books[p] == s.books[q] ==> p == q)
      && (forall ref :: 0 <= ref < |s.heap| ==> Mapped(s.books, ref) || BeingMade(s, ref))
  {
    RunInv(Start(callers), schedule);
    var s := RunOf(Start(callers), schedule);
    forall p | p in s.books ensures s.books[p] < |s.heap| && s.heap[s.books[p]] == Run(EMPTY, OpsOf(s.log, p)) {
      ReplayIsRun(s.log, p);
    }
  }

  // ----- the books stay well formed

  /** What the books assume of new orders: sensible fills, and different ids within a pair. */
  ghost predicate Sane(callers: seq<Caller>) {
    && (forall c :: 0 <= c < |callers| && callers[c].request.Submit? ==>
          0 <= callers[c].request.order.filled <= callers[c].request.order.quantity)
    && (forall c, e :: 0 <= c < e < |callers| && callers[c].request.Submit? && callers[e].request.Submit? ==>
          callers[c].pair == callers[e].pair ==> callers[c].request.order.id != callers[e].request.order.id)
  }

  /** Every caller's operation is carried out at most once, when the caller gets its answer. */
  ghost predicate Once(s: State) {
    && (forall i :: 0 <= i < |s.log| ==> s.log[i].caller < |s.callers| && DoneFor(s.callers[s.log[i].caller], s.log[i]))
    && (forall i, j :: 0 <= i < j < |s.log| ==> s.log[i].caller != s.log[j].caller)
  }

  predicate DoneFor(x: Caller, d: Done) {
    x.phase.Answered? && x.pair == d.pair && x.request == d.request
  }

  /** A step leaves the other callers alone, and records an operation when its caller gets its answer. */
  lemma NextRecords(s: State, c: nat)
    requires c < |s.callers| && Next(s, c).Some?
    ensures var s', x := Next(s, c).value, s.callers[c];
      && |s'.callers| == |s.callers| && s'.callers[c] == x.(phase := s'.callers[c].phase) && !x.phase.Answered?
      && (forall e :: 0 <= e < |s.callers| && e != c ==> s'.callers[e] == s.callers[e])
      && (s'.log == s.log ||
          (|s'.log| == |s.log| + 1 && s.log == s'.log[..|s.log|] &&
           s'.log[|s.log|].caller == c && DoneFor(s'.callers[c], s'.log[|s.log|])))
  {
    hide BookAfter;
    hide ResponseOf;
  }

  lemma OnceNext(s: State, c: nat)
    requires Once(s) && c < |s.callers| && Next(s, c).Some?
    ensures Once(Next(s, c).value)
    ensures var callers := Next(s, c).value.callers;
      |callers| == |s.callers| && forall e :: 0 <= e < |callers| ==>
        callers[e].pair == s.callers[e].pair && callers[e].request == s.callers[e].request
  {
    NextRecords(s, c);
    hide Next;
    var s' := Next(s, c).value;
    forall i | 0 <= i < |s.log| ensures s'.log[i] == s.log[i] && s.log[i].caller != c {
      assert DoneFor(s.callers[s.log[i].caller], s.log[i]);
    }
    forall i | 0 <= i < |s'.log|
      ensures s'.log[i].caller < |s'.callers| && DoneFor(s'.callers[s'.log[i].caller], s'.log[i])
    {
      if i < |s.log| { assert DoneFor(s.callers[s.log[i].caller], s.log[i]); }
    }
  }

  lemma {:induction false} RunOnce(s: State, schedule: seq<nat>)
    requires Once(s)
    ensures var s' := RunOf(s, schedule);
      && Once(s') && |s'.callers| == |s.callers|
      && forall e :: 0 <= e < |s'.callers| ==>
           s'.callers[e].pair == s.callers[e].pair && s'.callers[e].request == s.callers[e].request
    decreases schedule
  {
    hide Next;
    hide Once;
    if schedule != [] {
      if schedule[0] < |s.callers| && Next(s, schedule[0]).Some? {
        OnceNext(s, schedule[0]);
        RunOnce(Next(s, schedule[0]).value, schedule[1..]);
      } else {
        RunOnce(s, schedule[1..]);
      }
    }
  }

  /** An operation of a caller that has its answer is recorded, and one of a caller without is not. */
  lemma Recorded(s: State, c: nat)
    requires Inv(s) && Once(s) && c < |s.callers|
    ensures s.callers[c].phase.Answered? <==> exists i :: 0 <= i < |s.log| && s.log[i].caller == c
  {
    hide BooksOk;
    hide Exclusive;
    hide Linear;
    assert CallerOk(s, c);
    forall i | 0 <= i < |s.log| ensures s.callers[s.log[i].caller].phase.Answered? {
      assert DoneFor(s.callers[s.log[i].caller], s.log[i]);
    }
  }

  /**
   The order of the record is one the callers could observe: an operation that had its answer when
   another had none yet comes before it.
   */
  lemma AnsweredFirst(callers: seq<Caller>, schedule: seq<nat>, later: seq<nat>, i: nat, j: nat)
    requires forall e :: 0 <= e < |callers| ==> callers[e].phase == Calling
    requires var s := RunOf(Start(callers), schedule);
      var log := RunOf(s, later).log;
      && i < |log| && j < |log| && log[i].caller < |s.callers| && log[j].caller < |s.callers|
      && s.callers[log[i].caller].phase.Answered? && !s.callers[log[j].caller].phase.Answered?
    ensures i < j
  {
    hide Inv;
    hide RunOf;
    var s := RunOf(Start(callers), schedule);
    StartInv(callers);
    RunInv(Start(callers), schedule);
    RunInv(s, later);
    RunOnce(Start(callers), schedule);
    RunOnce(s, later);
    var log := RunOf(s, later).log;
    Recorded(s, log[i].caller);
    Recorded(s, log[j].caller);
    var k :| 0 <= k < |s.log| && s.log[k].caller == log[i].caller;
    assert log[k] == s.log[k];
    assert forall n :: 0 <= n < |s.log| ==> s.log[n] == log[n];
  }

  /** A record of operations of callers that are sane. */
  ghost predicate SaneLog(log: seq<Done>) {
    && (forall i :: 0 <= i < |log| && log[i].request.Submit? ==>
          0 <= log[i].request.order.filled <= log[i].request.order.quantity)
    && (forall i, j ::
         0 <= i < j < |log| && log[i].request.Submit? && log[j].request.Submit? && log[i].pair == log[j].pair ==>
          log[i].request.order.id != log[j].request.order.id)
  }

  lemma LogSane(s: State)
    requires Once(s) && Sane(s.callers)
    ensures SaneLog(s.log)
  {
    forall i | 0 <= i < |s.log| ensures DoneFor(s.callers[s.log[i].caller], s.log[i]) {}
    forall i, j | 0 <= i < j < |s.log| && s.log[i].request.Submit? && s.log[j].request.Submit? &&
      s.log[i].pair == s.log[j].pair
      ensures s.log[i].request.order.id != s.log[j].request.order.id
    {
      assert s.log[i].caller != s.log[j].caller;
    }
  }

  /** An order that a pair's operations place is one that was recorded for the pair. */
  lemma {:induction false} OpsRecorded(log: seq<Done>, pair: string, k: nat)
    requires k < |OpsOf(log, pair)| && OpsOf(log, pair)[k].PlaceOp?
    ensures exists i :: 0 <= i < |log| && log[i].pair == pair && log[i].request == Submit(OpsOf(log, pair)[k].order)
    decreases log
  {
    var d, rest := log[|log| - 1], log[..|log| - 1];
    if k < |OpsOf(rest, pair)| {
      OpsRecorded(rest, pair, k);
      var i :| 0 <= i < |rest| && rest[i].pair == pair && rest[i].request == Submit(OpsOf(rest, pair)[k].order);
      assert log[i] == rest[i];
    }
  }

  /** The serial run of a pair's operations is a proper run of its book. */
  lemma {:induction false} OpsProper(log: seq<Done>, pair: string)
    requires SaneLog(log)
    ensures Proper(EMPTY, OpsOf(log, pair)) && BookOk(Run(EMPTY, OpsOf(log, pair)))
    decreases log
  {
    if log != [] {
      var d, rest := log[|log| - 1], log[..|log| - 1];
      var ops := OpsOf(rest, pair);
      OpsProper(rest, pair);
      if d.pair == pair && d.request.Submit? {
        var o := d.request.order;
        forall k | 0 <= k < |ops| && ops[k].PlaceOp? ensures ops[k].order.id != o.id {
          OpsRecorded(rest, pair, k);
          var i :| 0 <= i < |rest| && rest[i].pair == pair && rest[i].request == Submit(ops[k].order);
          assert log[i] == rest[i];
        }
        RunUnused(EMPTY, ops, o.id);
        ProperThen(EMPTY, ops, PlaceOp(o));
      } else if d.pair == pair && d.request.CancelById? {
        ProperThen(EMPTY, ops, CancelOp(d.request.id));
      } else {
        assert OpsOf(log, pair) == ops;
      }
      RunKeeps(EMPTY, OpsOf(log, pair));
    }
  }

  /** In every interleaving of sane callers every book stays sorted, with distinct ids, and uncrossed. */
  lemma BooksStayOk(callers: seq<Caller>, schedule: seq<nat>, pair: string)
    requires Sane(callers) && forall e :: 0 <= e < |callers| ==> callers[e].phase == Calling
    requires pair in RunOf(Start(callers), schedule).books
    ensures var s := RunOf(Start(callers), schedule);
      && Proper(EMPTY, OpsOf(s.log, pair)) && s.books[pair] < |s.heap|
      && var b := s.heap[s.books[pair]];
      && BookOk(b)
      && forall i, j :: 0 <= i < |b.bids| && 0 <= j < |b.asks| ==> b.bids[i].price < b.asks[j].price
  {
    hide BookOk;
    hide Proper;
    var s := RunOf(Start(callers), schedule);
    OneBookPerPair(callers, schedule);
    RunOnce(Start(callers), schedule);
    LogSane(s);
    OpsProper(s.log, pair);
    Uncrossed(s.heap[s.books[pair]]);
  }
}
