/**
 Six tokens are shared by all readers: a reader takes one before it starts a handler, and the handler
 gives it back at its end (internal/pkg/processor/main.go). Steps of any number of readers and handlers
 interleave arbitrarily.
 */
module Dispatch {

  const LIMIT := 6

  // What the table of handlers says about a message number. A negative one passes the length test and panics.
  datatype Verdict = Handled | NoHandler | Unknown | OutOfRange

  function Lookup(table: seq<bool>, tMessage: int): (v: Verdict) {
    if |table| > tMessage then
      if tMessage < 0 then OutOfRange
      else if table[tMessage] then Handled
      else NoHandler
    else Unknown
  }

  // The one reader of the server connection recovers from a panic by ending for good, a panel's reader has no
  // recovery.
  datatype Kind = Server | Panel

  // A reader waits in takeQ with a message, or holds a token that its handler will return.
  datatype Reader = Idle(kind: Kind) | Asking(kind: Kind, id: nat) | Holding(kind: Kind, id: nat)

  /** Which message numbers have a handler, on the server connection and on a panel's. */
  datatype Tables = Tables(server: seq<bool>, panel: seq<bool>)

  function TableOf(tables: Tables, kind: Kind): (table: seq<bool>) {
    if kind.Server? then tables.server else tables.panel
  }

  datatype Handler = Running | Releasing

  /**
   `tokens` is the length of the channel; messages are numbered in the order of their dispatch. A process
   that is not alive takes no more steps. `serving` tells whether the loop that connects to the server goes on.
   */
  datatype State = State(
    alive: bool,
    serving: bool,
    tokens: nat,
    next: nat,
    readers: map<nat, Reader>,
    handlers: map<nat, Handler>,
    dropped: set<nat>,
    finished: set<nat>)

  const Start := State(true, true, 0, 0, map[], map[], {}, {})

  datatype Event =
    | Open(r: nat, kind: Kind)
    | Close(r: nat)
    | Receive(r: nat, tMessage: int)
    | Take(r: nat)
    | Timeout(r: nat)
    | Spawn(r: nat)
    | Finish(id: nat)
    | Back(id: nat)

  predicate HasServer(s: State) {
    exists r :: r in s.readers && s.readers[r].kind.Server?
  }

  predicate Enabled(s: State, e: Event) {
    s.alive &&
    match e
    case Open(r, kind) => r !in s.readers && (kind.Server? ==> s.serving && !HasServer(s))
    case Close(r) => r in s.readers && s.readers[r].Idle?
    case Receive(r, _) => r in s.readers && s.readers[r].Idle?
    case Take(r) => r in s.readers && s.readers[r].Asking? && s.tokens < LIMIT
    case Timeout(r) => r in s.readers && s.readers[r].Asking?
    case Spawn(r) => r in s.readers && s.readers[r].Holding?
    case Finish(id) => id in s.handlers && s.handlers[id].Running?
    case Back(id) => id in s.handlers && s.handlers[id].Releasing? && s.tokens > 0
  }

  function Next(tables: Tables, s: State, e: Event): (t: State)
    requires Enabled(s, e)
  {
    match e
    case Open(r, kind) => s.(readers := s.readers[r := Idle(kind)])
    case Close(r) => s.(readers := s.readers - {r})
    case Receive(r, n) =>
      var kind := s.readers[r].kind;
      (match Lookup(TableOf(tables, kind), n)
       case Handled => s.(readers := s.readers[r := Asking(kind, s.next)], next := s.next + 1)
       case OutOfRange => 
         s.(readers := s.readers - {r}, alive := kind.Server?, serving := s.serving && kind.Panel?)
       case _ => s)
    case Take(r) => s.(readers := s.readers[r := Holding(s.readers[r].kind, s.readers[r].id)], tokens := s.tokens + 1)
    case Timeout(r) => s.(readers := s.readers[r := Idle(s.readers[r].kind)], dropped := s.dropped + {s.readers[r].id})
    case Spawn(r) => s.(readers := s.readers[r := Idle(s.readers[r].kind)],
                    handlers := s.handlers[s.readers[r].id := Running])
    case Finish(id) => s.(handlers := s.handlers[id := Releasing])
    case Back(id) => s.(handlers := s.handlers - {id}, finished := s.finished + {id}, tokens := s.tokens - 1)
  }

  function Holders(s: State): (h: set<nat>) {
    set r | r in s.readers && s.readers[r].Holding?
  }

  predicate At(s: State, r: nat, id: nat) {
    r in s.readers && !s.readers[r].Idle? && s.readers[r].id == id
  }

  /** The channel holds one token for each holder. */
  predicate Counted(s: State) {
    s.tokens == |Holders(s)| + |s.handlers| && s.tokens <= LIMIT
  }

  // The four places a dispatched message can be in exclude each other.
  ghost predicate Apart(s: State) {
    && s.dropped !! s.finished
    && (forall id :: id in s.handlers ==> id !in s.dropped && id !in s.finished)
    && (forall r :: r in s.readers && !s.readers[r].Idle? ==>
          var id := s.readers[r].id; id !in s.dropped && id !in s.finished && id !in s.handlers)
    && (forall r, q :: r in s.readers && q in s.readers && r != q && !s.readers[r].Idle? && !s.readers[q].Idle? ==>
          s.readers[r].id != s.readers[q].id)
  }

  ghost predicate Numbered(s: State) {
    && (forall id :: id in s.dropped || id in s.finished || id in s.handlers ==> id < s.next)
    && (forall r :: r in s.readers && !s.readers[r].Idle? ==> s.readers[r].id < s.next)
  }

  ghost predicate Somewhere(s: State, id: nat) {
    id in s.dropped || id in s.finished || id in s.handlers || exists r :: At(s, r, id)
  }

  ghost predicate Inv(s: State) {
    && Counted(s) && Apart(s) && Numbered(s)
    && forall id :: 0 <= id < s.next ==> Somewhere(s, id)
  }

  lemma HoldersStep(tables: Tables, s: State, e: Event)
    requires Enabled(s, e)
    ensures var h := Holders(Next(tables, s, e));
            match e
            case Take(r) => h == Holders(s) + {r} && r !in Holders(s)
            case Spawn(r) => h == Holders(s) - {r} && r in Holders(s)
            case _ => h == Holders(s)
  {
  }

  lemma HandlersStep(tables: Tables, s: State, e: Event)
    requires Enabled(s, e) && Apart(s)
    ensures var n := |Next(tables, s, e).handlers|;
            match e
            case Spawn(r) => n == |s.handlers| + 1
            case Back(id) => n == |s.handlers| - 1
            case _ => n == |s.handlers|
  {
    hide Lookup;
    match e
    case Spawn(r) =>
      assert s.readers[r].id !in s.handlers;
      hide Apart;
      MapSize(s.handlers, s.readers[r].id, Running);
    case Finish(id) =>
      hide Apart;
      MapSize(s.handlers, id, Releasing);
    case Back(id) =>
      hide Apart;
      MapSize(s.handlers, id, Releasing);
    case Receive(r, n) =>
      ReceiveKeepsHandlers(tables, s, r, n);
    case _ =>
  }

  lemma ReceiveKeepsHandlers(tables: Tables, s: State, r: nat, n: int)
    requires Enabled(s, Receive(r, n))
    ensures Next(tables, s, Receive(r, n)).handlers == s.handlers
  {
  }

  lemma MapSize<V>(m: map<nat, V>, k: nat, v: V)
    ensures |m[k := v]| == |m| + if k in m then 0 else 1
    ensures |m - {k}| == |m| - if k in m then 1 else 0
  {
    assert |m| == |m.Keys| && |m[k := v]| == |m[k := v].Keys| && |m - {k}| == |(m - {k}).Keys|;
    assert m[k := v].Keys == m.Keys + {k};
    assert (m - {k}).Keys == m.Keys - {k};
  }

  lemma CountedStep(tables: Tables, s: State, e: Event)
    requires Counted(s) && Apart(s) && Enabled(s, e)
    ensures Counted(Next(tables, s, e))
  {
    hide Holders, Apart;
    HoldersStep(tables, s, e);
    HandlersStep(tables, s, e);
  }

  lemma ApartStep(tables: Tables, s: State, e: Event)
    requires Apart(s) && Numbered(s) && Enabled(s, e)
    ensures Apart(Next(tables, s, e)) && Numbered(Next(tables, s, e))
  {
  }

  lemma SomewhereStep(tables: Tables, s: State, e: Event, id: nat)
    requires Enabled(s, e) && Somewhere(s, id)
    ensures Somewhere(Next(tables, s, e), id)
  {
    var t := Next(tables, s, e);
    if r :| At(s, r, id) {
      if e.Timeout? || e.Spawn? {
        if e.r != r { assert At(t, r, id); }
      } else {
        assert At(t, r, id);
      }
    }
  }

  lemma StepKeeps(tables: Tables, s: State, e: Event)
    requires Inv(s) && Enabled(s, e)
    ensures Inv(Next(tables, s, e))
  {
    hide Somewhere, Counted, Apart, Numbered;
    var t := Next(tables, s, e);
    CountedStep(tables, s, e);
    ApartStep(tables, s, e);
    forall id | 0 <= id < t.next ensures Somewhere(t, id) {
      if id < s.next {
        SomewhereStep(tables, s, e, id);
      } else {
        NewMessage(tables, s, e);
      }
    }
  }

  lemma NewMessage(tables: Tables, s: State, e: Event)
    requires Enabled(s, e) && Next(tables, s, e).next > s.next
    ensures Somewhere(Next(tables, s, e), s.next)
  {
    assert At(Next(tables, s, e), e.r, s.next);
  }

  ghost predicate IsRun(tables: Tables, run: seq<State>, events: seq<Event>) {
    && |run| == |events| + 1 && run[0] == Start
    && forall i :: 0 <= i < |events| ==> Enabled(run[i], events[i]) && run[i + 1] == Next(tables, run[i], events[i])
  }

  lemma {:induction false} RunInv(tables: Tables, run: seq<State>, events: seq<Event>, n: nat)
    requires IsRun(tables, run, events) && n < |run|
    ensures Inv(run[n])
  {
    hide Next, Enabled;
    if n == 0 {
      assert Holders(Start) == {};
    } else {
      RunInv(tables, run, events, n - 1);
      StepKeeps(tables, run[n - 1], events[n - 1]);
      assert run[n - 1 + 1] == run[n];
    }
  }

  /** In every reachable state the channel holds as many tokens as there are holders, and six at most. */
  lemma TokensMatchHolders(tables: Tables, run: seq<State>, events: seq<Event>, n: nat)
    requires IsRun(tables, run, events) && n < |run|
    ensures run[n].tokens == |Holders(run[n])| + |run[n].handlers| && run[n].tokens <= 6
  {
    RunInv(tables, run, events, n);
  }

  /** A handler that has done its work never waits in backQ. */
  lemma BackNeverBlocks(tables: Tables, run: seq<State>, events: seq<Event>, n: nat, id: nat)
    requires IsRun(tables, run, events) && n < |run|
    requires run[n].alive && id in run[n].handlers && run[n].handlers[id].Releasing?
    ensures Enabled(run[n], Back(id))
  {
    RunInv(tables, run, events, n);
    assert id in run[n].handlers.Keys;
    assert |run[n].handlers| == |run[n].handlers.Keys| > 0;
  }

  /** A dispatched message is in exactly one place: with its reader, in its handler, dropped or finished. */
  lemma ExactlyOnePlace(tables: Tables, run: seq<State>, events: seq<Event>, n: nat, id: nat)
    requires IsRun(tables, run, events) && n < |run|
    ensures id < run[n].next <==> Somewhere(run[n], id)
    ensures id in run[n].dropped ==> id !in run[n].finished && id !in run[n].handlers && !exists r :: At(run[n], r, id)
    ensures id in run[n].finished ==> id !in run[n].handlers && !exists r :: At(run[n], r, id)
    ensures id in run[n].handlers ==> !exists r :: At(run[n], r, id)
    ensures forall r, q :: At(run[n], r, id) && At(run[n], q, id) ==> r == q
  {
    RunInv(tables, run, events, n);
  }

  /** Once nobody works on a message any more every dispatched one was either dropped or finished. */
  lemma QuietConservation(tables: Tables, run: seq<State>, events: seq<Event>, n: nat)
    requires IsRun(tables, run, events) && n < |run|
    requires run[n].handlers == map[] && forall r :: r in run[n].readers ==> run[n].readers[r].Idle?
    ensures |run[n].dropped| + |run[n].finished| == run[n].next && run[n].tokens == 0
  {
    RunInv(tables, run, events, n);
    var s := run[n];
    assert Holders(s) == {};
    forall id | 0 <= id < s.next ensures id in s.dropped + s.finished {
      assert Somewhere(s, id);
    }
    SizeOfInitialSegment(s.dropped + s.finished, s.next);
  }

  lemma {:induction false} SizeOfInitialSegment(b: set<nat>, n: nat)
    requires forall id :: id in b <==> 0 <= id < n
    ensures |b| == n
  {
    if n > 0 {
      SizeOfInitialSegment(b - {n - 1}, n - 1);
    } else {
      assert b == {};
    }
  }

  // The lookup is out of range exactly for negative message numbers.
  lemma OutOfRangeExactly(table: seq<bool>, tMessage: int)
    ensures Lookup(table, tMessage) == OutOfRange <==> tMessage < 0
    ensures Lookup(table, tMessage) == Handled <==> 0 <= tMessage < |table| && table[tMessage]
  {
  }

  // A reader of this kind is sent a negative number.
  predicate Strikes(s: State, e: Event, kind: Kind) {
    e.Receive? && e.tMessage < 0 && e.r in s.readers && s.readers[e.r].kind == kind
  }

  lemma StrikeStep(tables: Tables, s: State, e: Event)
    requires Enabled(s, e)
    ensures var t := Next(tables, s, e);
            && (t.alive <==> !Strikes(s, e, Panel))
            && (t.serving <==> s.serving && !Strikes(s, e, Server))
  {
    if e.Receive? { OutOfRangeExactly(TableOf(tables, s.readers[e.r].kind), e.tMessage); }
  }

  predicate OneServer(s: State) {
    forall r, q :: r in s.readers && q in s.readers && s.readers[r].kind.Server? && s.readers[q].kind.Server? ==> r == q
  }

  // The loop has one connection at a time, and none once it has ended.
  predicate Served(s: State) {
    OneServer(s) && (!s.serving ==> !HasServer(s))
  }

  lemma ServedStep(tables: Tables, s: State, e: Event)
    requires Enabled(s, e) && Served(s)
    ensures Served(Next(tables, s, e))
  {
    var t := Next(tables, s, e);
    KindStep(tables, s, e);
    hide Next, Enabled;
    StrikeStep(tables, s, e);
  }

  // Readers keep their kind; a new one is for a panel, or for the server while there is none.
  lemma KindStep(tables: Tables, s: State, e: Event)
    requires Enabled(s, e)
    ensures var t := Next(tables, s, e);
            && (forall r :: r in t.readers && r in s.readers ==> t.readers[r].kind == s.readers[r].kind)
            && (forall r :: r in t.readers && r !in s.readers ==>
                  e == Open(r, t.readers[r].kind) && (t.readers[r].kind.Server? ==> s.serving && !HasServer(s)))
            && (Strikes(s, e, Server) ==> e.r !in t.readers)
  {
    if e.Receive? { OutOfRangeExactly(TableOf(tables, s.readers[e.r].kind), e.tMessage); }
  }

  lemma {:induction false} RunServed(tables: Tables, run: seq<State>, events: seq<Event>, n: nat)
    requires IsRun(tables, run, events) && n < |run|
    ensures Served(run[n])
    ensures run[n].serving <==> forall i :: 0 <= i < n ==> !Strikes(run[i], events[i], Server)
    ensures run[n].alive <==> forall i :: 0 <= i < n ==> !Strikes(run[i], events[i], Panel)
  {
    hide Next, Strikes, Enabled, Served;
    if n > 0 {
      RunServed(tables, run, events, n - 1);
      ServedStep(tables, run[n - 1], events[n - 1]);
      StrikeStep(tables, run[n - 1], events[n - 1]);
      AliveBefore(run[n - 1], events[n - 1]);
      assert run[n - 1 + 1] == run[n];
    } else {
      NobodyReads(run[0]);
    }
  }

  lemma NobodyReads(s: State)
    requires s == Start
    ensures Served(s)
  {
  }

  /**
   The process ends exactly when some panel sends a negative message number. If the server sends one, the
   process lives on, but never reads from the server again.
   */
  lemma NegativeEndsProcess(tables: Tables, run: seq<State>, events: seq<Event>, n: nat)
    requires IsRun(tables, run, events) && n < |run|
    ensures !run[n].alive <==> exists i :: 0 <= i < n && Strikes(run[i], events[i], Panel)
    ensures forall i, r :: 0 <= i < n && Strikes(run[i], events[i], Server) && r in run[n].readers ==>
              run[n].readers[r].kind.Panel?
  {
    hide Strikes;
    RunServed(tables, run, events, n);
  }

  lemma AliveBefore(s: State, e: Event)
    requires Enabled(s, e)
    ensures s.alive
  {
  }

  // ---------------------------------------------------------------- what is dispatched, and that it can finish

  // A message that has a handler in the table of its reader.
  predicate HasHandler(tables: Tables, s: State, e: Event) {
    && e.Receive? && e.r in s.readers && e.tMessage >= 0
    && match s.readers[e.r].kind
       case Server => e.tMessage < |tables.server| && tables.server[e.tMessage]
       case Panel => e.tMessage < |tables.panel| && tables.panel[e.tMessage]
  }

  function Dispatched(tables: Tables, run: seq<State>, events: seq<Event>, n: nat): (k: nat)
    requires n <= |events| && n <= |run|
  {
    if n == 0 then 0
    else Dispatched(tables, run, events, n - 1) + if HasHandler(tables, run[n - 1], events[n - 1]) then 1 else 0
  }

  lemma DispatchStep(tables: Tables, s: State, e: Event)
    requires Enabled(s, e)
    ensures Next(tables, s, e).next == s.next + if HasHandler(tables, s, e) then 1 else 0
    ensures HasHandler(tables, s, e) ==> At(Next(tables, s, e), e.r, s.next)
    ensures e.Receive? && e.tMessage >= 0 && !HasHandler(tables, s, e) ==> Next(tables, s, e) == s
  {
  }

  /**
   The messages dispatched are exactly those whose number has a handler in the table of the connection they
   came from, and each waits for a token at once; any other number that is not negative changes nothing.
   */
  lemma {:induction false} DispatchedExactly(tables: Tables, run: seq<State>, events: seq<Event>, n: nat)
    requires IsRun(tables, run, events) && n < |run|
    ensures run[n].next == Dispatched(tables, run, events, n)
    ensures forall i :: 0 <= i < n && HasHandler(tables, run[i], events[i]) ==> At(run[i + 1], events[i].r, run[i].next)
    ensures forall i | 0 <= i < n && events[i].Receive? && events[i].tMessage >= 0 ::
              HasHandler(tables, run[i], events[i]) || run[i + 1] == run[i]
  {
    hide Next, Enabled, HasHandler, At;
    if n > 0 {
      DispatchedExactly(tables, run, events, n - 1);
      DispatchStep(tables, run[n - 1], events[n - 1]);
      assert run[n - 1 + 1] == run[n];
    }
  }

  function Last(run: seq<State>): (s: State)
    requires run != []
  {
    run[|run| - 1]
  }

  lemma Extend(tables: Tables, run: seq<State>, events: seq<Event>, e: Event)
    returns (longer: seq<State>, more: seq<Event>)
    requires run != [] && IsRun(tables, run, events) && Enabled(Last(run), e)
    ensures run <= longer && events <= more && longer != [] && IsRun(tables, longer, more)
    ensures Last(longer) == Next(tables, Last(run), e)
  {
    hide Next, Enabled;
    longer, more := run + [Next(tables, Last(run), e)], events + [e];
  }

  // From the token to the end of the handler.
  lemma Handle(tables: Tables, s: State, r: nat)
    requires s.alive && r in s.readers && s.readers[r].Asking? && s.tokens < 6 && s.readers[r].id !in s.handlers
    ensures Enabled(s, Take(r))
    ensures var id, t := s.readers[r].id, Next(tables, s, Take(r));
            && Enabled(t, Spawn(r)) && t.tokens == s.tokens + 1
            && var u := Next(tables, t, Spawn(r));
               && Enabled(u, Finish(id)) && u.tokens == s.tokens + 1
               && var v := Next(tables, u, Finish(id));
                  && Enabled(v, Back(id))
                  && id in Next(tables, v, Back(id)).finished && Next(tables, v, Back(id)).tokens == s.tokens
  {
  }

  /**
   Whenever a token is free the run can go on so that the message of a waiting reader is handled to the end,
   after which as many tokens are out as before.
   */
  lemma CanFinish(tables: Tables, run: seq<State>, events: seq<Event>, r: nat)
    returns (longer: seq<State>, more: seq<Event>)
    requires run != [] && IsRun(tables, run, events)
    requires var s := Last(run); s.alive && s.tokens < 6 && r in s.readers && s.readers[r].Asking?
    ensures run <= longer && events <= more && longer != [] && IsRun(tables, longer, more)
    ensures Last(run).readers[r].id in Last(longer).finished && Last(longer).tokens == Last(run).tokens
  {
    hide IsRun, Last, Next, Enabled, Inv;
    var s := Last(run);
    var id := s.readers[r].id;
    NotHandled(tables, run, events, r);
    Handle(tables, s, r);
    longer, more := Extend(tables, run, events, Take(r));
    longer, more := Extend(tables, longer, more, Spawn(r));
    longer, more := Extend(tables, longer, more, Finish(id));
    longer, more := Extend(tables, longer, more, Back(id));
  }

  lemma NotHandled(tables: Tables, run: seq<State>, events: seq<Event>, r: nat)
    requires run != [] && IsRun(tables, run, events)
    requires r in Last(run).readers && !Last(run).readers[r].Idle?
    ensures Last(run).readers[r].id !in Last(run).handlers
  {
    RunInv(tables, run, events, |run| - 1);
  }

  /** And when none is free the reader can give up, and drops its message. */
  lemma CanGiveUp(tables: Tables, s: State, r: nat)
    requires s.alive && r in s.readers && s.readers[r].Asking?
    ensures Enabled(s, Take(r)) <==> s.tokens < 6
    ensures Enabled(s, Timeout(r)) && s.readers[r].id in Next(tables, s, Timeout(r)).dropped
  {
  }

  /** Readers and handlers can always go on, except that a reader has to wait for a token or give up. */
  lemma NobodyStuck(tables: Tables, run: seq<State>, events: seq<Event>, n: nat, r: nat, id: nat)
    requires IsRun(tables, run, events) && n < |run| && run[n].alive
    ensures r in run[n].readers ==>
              match run[n].readers[r]
              case Idle(_) =>
                && Enabled(run[n], Close(r)) && r !in Next(tables, run[n], Close(r)).readers
                && forall m :: Enabled(run[n], Receive(r, m))
              case Asking(_, _) => Enabled(run[n], Timeout(r)) && (run[n].tokens < 6 ==> Enabled(run[n], Take(r)))
              case Holding(_, _) => Enabled(run[n], Spawn(r))
    ensures id in run[n].handlers ==>
              if run[n].handlers[id].Running? then Enabled(run[n], Finish(id)) else Enabled(run[n], Back(id))
  {
    if id in run[n].handlers && run[n].handlers[id].Releasing? { BackNeverBlocks(tables, run, events, n, id); }
  }
}
