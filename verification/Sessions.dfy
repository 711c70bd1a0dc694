/**
 Any number of sessions between a server connection and a VNC connection, with the hand-over of the
 pair of ends to whichever local viewer connects next, and two relay loops per session
 (internal/pkg/processor/main.go). The two assignments of `connectServer` are one step, and so is the
 viewer's taking and clearing of the pair.
 */
module Sessions {
  import opened Wrappers
  import opened Utf8

  datatype Side = Near | Far

  /** The address of `peer1` (near) or `peer2` (far) of one call of `connectVisit`. */
  datatype Ref = Ref(session: nat, side: Side)

  function Other(r: Ref): (o: Ref)
    ensures o != r && o.session == r.session
  {
    Ref(r.session, if r.side == Near then Far else Near)
  }

  /**
   A connection with the bytes read from it, and all the bytes it accepted in their order. Of these,
   `relayed` are those a relay wrote, `greeting` those of its session's code, and `ahead` those of a relay
   that came before the greeting. After a short write it accepts nothing more.
   */
  datatype Conn = Conn(
    got: seq<byte>, accepted: seq<byte>,
    relayed: seq<byte>, greeting: seq<byte>, ahead: seq<byte>,
    broken: bool, closed: bool)

  const NewConn := Conn([], [], [], [], [], false, false)

  // How far a relay has come; a chunk that was read remembers whether the read failed.
  datatype Phase =
    | Greeting(text: seq<byte>)
    | Waiting
    | Reading
    | Writing(chunk: seq<byte>, failed: bool)
    | Closed

  datatype Worker =
    | Dialling(own: Ref, other: Ref, code: seq<byte>)   // connectClient before it has a connection
    | Offering(own: Ref, other: Ref)                    // connectServer
    | Queued(conn: nat)                                 // localDataHandler before it has a pair
    | Linked(own: Ref, other: Ref, code: seq<byte>, conn: nat, isViewer: bool, phase: Phase)
    | Gone

  /** `pointers` holds the pointers that are not nil; `buff1` and `buff2` are the shared pair. */
  datatype State = State(
    sessions: nat,
    pointers: map<Ref, nat>,
    conns: seq<Conn>,
    buff1: Option<Ref>,
    buff2: Option<Ref>,
    workers: seq<Worker>)

  const Start := State(0, map[], [], None, None, [])

  datatype Event =
    | Visit(mode: int, code: seq<byte>)
    | Accept
    | Dial(w: nat)
    | DialFails(w: nat)
    | Offer(w: nat)
    | Take(w: nat)
    | GiveUp(w: nat)
    | Greet(w: nat, n: nat)
    | Begin(w: nat)
    | Read(w: nat, data: seq<byte>, failed: bool)
    | Write(w: nat, n: nat, failed: bool)

  // What is written first to the connection that was dialled with a code.
  function Hello(code: seq<byte>): (text: seq<byte>) {
    if code == [] then [] else code + ['\n' as int]
  }

  // The two threads of a session; an unknown mode starts none.
  function Started(session: nat, mode: int, code: seq<byte>): (ws: seq<Worker>) {
    var near, far := Ref(session, Near), Ref(session, Far);
    if mode < 1 || mode > 4 then [] else
      [if mode <= 2 then Dialling(near, far, code) else Offering(near, far),
       if mode == 1 || mode == 3 then Dialling(far, near, []) else Offering(far, near)]
  }

  // `connectClient` dereferences its own pointer, `localDataHandler` reads the connection it was given.
  function Source(s: State, w: Worker): (c: nat)
    requires w.Linked? && w.own in s.pointers
  {
    if w.isViewer then w.conn else s.pointers[w.own]
  }

  predicate Valid(s: State, c: nat) {
    c < |s.conns|
  }

  predicate Enabled(s: State, e: Event) {
    match e
    case Visit(_, _) => true
    case Accept => true
    case Dial(w) => w < |s.workers| && s.workers[w].Dialling?
    case DialFails(w) => w < |s.workers| && s.workers[w].Dialling?
    case Offer(w) => w < |s.workers| && s.workers[w].Offering?
    case Take(w) => w < |s.workers| && s.workers[w].Queued? && s.buff1.Some? && s.buff2.Some?
    case GiveUp(w) =>
      w < |s.workers| &&
      var t := s.workers[w];
      if t.Queued? then Valid(s, t.conn) && (s.buff1.None? || s.buff2.None?)
      else t.Linked? && t.phase.Waiting? && t.other !in s.pointers && Valid(s, t.conn)
    case Greet(w, n) =>
      w < |s.workers| &&
      var t := s.workers[w];
      t.Linked? && t.phase.Greeting? && t.own in s.pointers && Valid(s, s.pointers[t.own])
      && n <= |t.phase.text| && (Blocked(s.conns[s.pointers[t.own]]) ==> n == 0)
    case Begin(w) =>
      w < |s.workers| && s.workers[w].Linked? && s.workers[w].phase.Waiting? && s.workers[w].other in s.pointers
    case Read(w, data, _) =>
      w < |s.workers| &&
      var t := s.workers[w];
      t.Linked? && t.phase.Reading? && t.own in s.pointers && Valid(s, Source(s, t))
      && (s.conns[Source(s, t)].closed ==> data == [])
    case Write(w, n, failed) =>
      w < |s.workers| &&
      var t := s.workers[w];
      t.Linked? && t.phase.Writing? && t.other in s.pointers && Valid(s, s.pointers[t.other]) && Valid(s, t.conn)
      && n <= |t.phase.chunk| && (n < |t.phase.chunk| ==> failed)
      && (Blocked(s.conns[s.pointers[t.other]]) ==> n == 0)
  }

  predicate Blocked(c: Conn) {
    c.broken || c.closed
  }

  // The end of both relay loops: two errors, or nothing read, or nothing written.
  predicate Stops(n1: nat, failed1: bool, n2: nat, failed2: bool) {
    (failed1 && failed2) || n1 == 0 || n2 == 0
  }

  function Close(conns: seq<Conn>, c: nat): (r: seq<Conn>)
    requires c < |conns|
    ensures |r| == |conns|
  {
    conns[c := conns[c].(closed := true)]
  }

  // What a relay leaves behind when it writes a chunk of which `n` bytes are accepted.
  function Written(dst: Conn, chunk: seq<byte>, n: nat): (r: Conn)
    requires n <= |chunk|
  {
    dst.(accepted := dst.accepted + chunk[..n], relayed := dst.relayed + chunk[..n],
         broken := dst.broken || n < |chunk|)
  }

  function Next(s: State, e: Event): (r: State)
    requires Enabled(s, e)
  {
    match e
    case Visit(mode, code) => s.(sessions := s.sessions + 1, workers := s.workers + Started(s.sessions, mode, code))
    case Accept => s.(conns := s.conns + [NewConn], workers := s.workers + [Queued(|s.conns|)])
    case Dial(w) =>
      var Dialling(own, other, code) := s.workers[w];
      var c := |s.conns|;
      s.(conns := s.conns + [NewConn], pointers := s.pointers[own := c],
         workers := s.workers[w := Linked(own, other, code, c, false,
            if code == [] then Waiting else Greeting(Hello(code)))])
    case DialFails(w) => s.(workers := s.workers[w := Gone])
    case Offer(w) =>
      s.(buff1 := Some(s.workers[w].own), buff2 := Some(s.workers[w].other), workers := s.workers[w := Gone])
    case Take(w) =>
      var own, c := s.buff1.value, s.workers[w].conn;
      s.(buff1 := None, buff2 := None, pointers := s.pointers[own := c],
         workers := s.workers[w := Linked(own, s.buff2.value, [], c, true, Waiting)])
    case GiveUp(w) =>
      var t := s.workers[w];
      s.(conns := Close(s.conns, t.conn), workers := s.workers[w := if t.Queued? then Gone else t.(phase := Closed)])
    case Greet(w, n) =>
      var t := s.workers[w];
      var c := s.pointers[t.own];
      var conn := s.conns[c];
      s.(conns := s.conns[c := conn.(accepted := conn.accepted + t.phase.text[..n],
                                     greeting := conn.greeting + t.phase.text[..n],
                                     ahead := conn.relayed,
                                     broken := conn.broken || n < |t.phase.text|)],
         workers := s.workers[w := t.(phase := Waiting)])
    case Begin(w) => s.(workers := s.workers[w := s.workers[w].(phase := Reading)])
    case Read(w, data, failed) =>
      var t := s.workers[w];
      var c := Source(s, t);
      s.(conns := s.conns[c := s.conns[c].(got := s.conns[c].got + data)],
         workers := s.workers[w := t.(phase := Writing(data, failed))])
    case Write(w, n, failed) =>
      var t := s.workers[w];
      var d, chunk := s.pointers[t.other], t.phase.chunk;
      var dst := s.conns[d];
      var conns := s.conns[d := Written(dst, chunk, n)];
      if Stops(|chunk|, t.phase.failed, n, failed) then
        s.(conns := Close(Close(conns, d), t.conn), workers := s.workers[w := t.(phase := Closed)])
      else
        s.(conns := conns, workers := s.workers[w := t.(phase := Reading)])
  }

  // ---------------------------------------------------------------- what every step keeps

  // The end a worker is responsible for.
  function Claim(w: Worker): (r: Option<Ref>) {
    match w
    case Dialling(own, _, _) => Some(own)
    case Offering(own, _) => Some(own)
    case Linked(own, _, _, _, _, _) => Some(own)
    case _ => None
  }

  ghost predicate IsLinked(s: State, i: nat, r: Ref) {
    i < |s.workers| && s.workers[i].Linked? && s.workers[i].own == r
  }

  // Pointers and connections belong to the worker that set them.
  ghost predicate Wired(s: State, w: Worker) {
    match w
    case Dialling(own, other, _) => other == Other(own) && own.session < s.sessions && own !in s.pointers
    case Offering(own, other) => other == Other(own) && own.session < s.sessions && own !in s.pointers
    case Queued(c) =>
      Valid(s, c) && s.conns[c].got == [] && s.conns[c].relayed == []
      && forall r :: r in s.pointers ==> s.pointers[r] != c
    case Linked(own, other, _, c, _, _) => other == Other(own) && own in s.pointers && s.pointers[own] == c
    case Gone => true
  }

  ghost predicate AllWired(s: State) {
    forall i :: 0 <= i < |s.workers| ==> Wired(s, s.workers[i])
  }

  /** The slot is empty or holds both ends of one session, the offered one first. */
  ghost predicate SlotPaired(s: State) {
    match s.buff1
    case None => s.buff2 == None
    case Some(r) => s.buff2 == Some(Other(r)) && r.session < s.sessions && r !in s.pointers
  }

  ghost predicate Unique(s: State) {
    && (forall i, j :: 0 <= i < j < |s.workers| && Claim(s.workers[i]).Some? ==>
          Claim(s.workers[i]) != Claim(s.workers[j]))
    && (forall i, j :: 0 <= i < j < |s.workers| && s.workers[i].Queued? ==> s.workers[i] != s.workers[j])
    && (forall i :: 0 <= i < |s.workers| && s.buff1.Some? ==> Claim(s.workers[i]) != s.buff1)
  }

  ghost predicate Pointed(s: State, r: Ref)
    requires r in s.pointers
  {
    && Valid(s, s.pointers[r]) && r.session < s.sessions
    && (Other(r) !in s.pointers ==> s.conns[s.pointers[r]].relayed == [])
    && exists i :: IsLinked(s, i, r)
  }

  ghost predicate AllPointed(s: State) {
    && (forall r :: r in s.pointers ==> Pointed(s, r))
    && (forall r, q :: r in s.pointers && q in s.pointers && r != q ==> s.pointers[r] != s.pointers[q])
  }

  // What a relay has passed on: everything read before the chunk in its hands, unless the receiver broke.
  predicate PassedOn(src: Conn, dst: Conn, held: nat) {
    && held <= |src.got|
    && var sent := src.got[..|src.got| - held];
       dst.relayed <= sent && (!dst.broken ==> dst.relayed == sent)
  }

  ghost predicate Flow(s: State, w: Worker)
  {
    w.Linked? && Valid(s, w.conn) && (w.other in s.pointers ==> Valid(s, s.pointers[w.other])) &&
    var src := s.conns[w.conn];
    if w.other !in s.pointers then !w.phase.Reading? && !w.phase.Writing? && src.got == []
    else
      var dst := s.conns[s.pointers[w.other]];
      match w.phase
      case Writing(chunk, _) => PassedOn(src, dst, |chunk|) && src.got[|src.got| - |chunk|..] == chunk
      case Reading => PassedOn(src, dst, 0)
      case Closed => PassedOn(src, dst, 0)
      case _ => src.got == [] && dst.relayed == []
  }

  ghost predicate Structure(s: State) {
    AllWired(s) && SlotPaired(s) && Unique(s) && AllPointed(s)
  }

  ghost predicate AllFlow(s: State)
  {
    forall i :: 0 <= i < |s.workers| && s.workers[i].Linked? ==> Flow(s, s.workers[i])
  }

  ghost predicate Inv(s: State) {
    Structure(s) && AllFlow(s)
  }

  // The worker an event is about.
  function Acting(s: State, e: Event): (w: nat) {
    if e.Visit? || e.Accept? then |s.workers| else e.w
  }

  // What a step can change, seen from everybody else.
  lemma Frame(s: State, e: Event)
    requires Enabled(s, e)
    ensures var t := Next(s, e);
            && s.sessions <= t.sessions && |s.workers| <= |t.workers| && |s.conns| <= |t.conns|
            && (forall i :: 0 <= i < |s.workers| && i != Acting(s, e) ==> t.workers[i] == s.workers[i])
            && (forall r :: r in s.pointers && !e.Dial? && !e.Take? ==>
                  r in t.pointers && t.pointers[r] == s.pointers[r])
            && (!e.Dial? && !e.Take? ==> t.pointers == s.pointers)
  {
  }

  lemma FrameConns(s: State, e: Event, c: nat)
    requires Enabled(s, e) && c < |s.conns|
    ensures var t := Next(s, e);
            && c < |t.conns| && (s.conns[c].broken ==> t.conns[c].broken)
            && (t.conns[c].got == s.conns[c].got || (e.Read? && c == Source(s, s.workers[e.w])))
            && (t.conns[c].relayed == s.conns[c].relayed || (e.Write? && c == s.pointers[s.workers[e.w].other]))
  {
  }

  lemma WiredOther(s: State, e: Event, i: nat)
    requires Structure(s) && Enabled(s, e) && i < |s.workers| && i != Acting(s, e)
    ensures Wired(Next(s, e), s.workers[i])
  {
    assert Wired(s, s.workers[i]);
    if s.workers[i].Queued? { FrameConns(s, e, s.workers[i].conn); }
    if Acting(s, e) < |s.workers| { assert Wired(s, s.workers[Acting(s, e)]); }
  }

  lemma WiredActing(s: State, e: Event, i: nat)
    requires Structure(s) && Enabled(s, e) && i < |Next(s, e).workers| && (i == Acting(s, e) || |s.workers| <= i)
    ensures Wired(Next(s, e), Next(s, e).workers[i])
  {
    hide Unique;
    if e.Dial? || e.Take? {
      WiredLinking(s, e);
    } else if Acting(s, e) < |s.workers| {
      WiredOn(s, e);
    } else {
      WiredNew(s, e, i);
    }
  }

  // A worker that gets its connection or its pair.
  lemma WiredLinking(s: State, e: Event)
    requires Structure(s) && Enabled(s, e) && (e.Dial? || e.Take?)
    ensures e.w < |Next(s, e).workers| && Wired(Next(s, e), Next(s, e).workers[e.w])
  {
    hide Unique, AllPointed;
    assert Wired(s, s.workers[e.w]);
    hide AllWired;
  }

  // A worker that goes on or ends.
  lemma WiredOn(s: State, e: Event)
    requires Structure(s) && Enabled(s, e) && !e.Dial? && !e.Take? && Acting(s, e) < |s.workers|
    ensures e.w < |Next(s, e).workers| && Wired(Next(s, e), Next(s, e).workers[e.w])
  {
    hide Unique, AllPointed, SlotPaired;
    assert Wired(s, s.workers[e.w]);
    hide AllWired;
  }

  // The threads of a new session, or a viewer that has just connected.
  lemma WiredNew(s: State, e: Event, i: nat)
    requires Structure(s) && Enabled(s, e) && (e.Visit? || e.Accept?) && |s.workers| <= i < |Next(s, e).workers|
    ensures Wired(Next(s, e), Next(s, e).workers[i])
  {
    hide Unique, AllWired, SlotPaired;
    assert forall r :: r in s.pointers ==> Pointed(s, r);
  }

  lemma WiredStep(s: State, e: Event)
    requires Structure(s) && Enabled(s, e)
    ensures AllWired(Next(s, e))
  {
    hide Wired, Next, Enabled;
    Frame(s, e);
    forall i | 0 <= i < |Next(s, e).workers| ensures Wired(Next(s, e), Next(s, e).workers[i]) {
      if i < |s.workers| && i != Acting(s, e) { WiredOther(s, e, i); } else { WiredActing(s, e, i); }
    }
  }

  lemma SlotStep(s: State, e: Event)
    requires Structure(s) && Enabled(s, e)
    ensures SlotPaired(Next(s, e))
  {
  }

  // A step keeps a worker's claim, drops it, or moves it through the slot; new claims are of a new session.
  lemma ClaimStep(s: State, e: Event, i: nat)
    requires Structure(s) && Enabled(s, e) && i < |Next(s, e).workers|
    ensures var claim := Claim(Next(s, e).workers[i]);
            || claim.None?
            || (i < |s.workers| && claim == Claim(s.workers[i]) && (e.Offer? ==> i != e.w))
            || (e.Take? && i == e.w && claim == s.buff1)
            || (e.Visit? && |s.workers| <= i
                && claim == Some(Ref(s.sessions, if i == |s.workers| then Near else Far)))
    ensures |Next(s, e).workers| <= |s.workers| + 2
  {
  }

  lemma OldClaim(s: State, i: nat)
    requires Structure(s) && i < |s.workers| && Claim(s.workers[i]).Some?
    ensures Claim(s.workers[i]).value.session < s.sessions
  {
    assert Wired(s, s.workers[i]);
    if s.workers[i].Linked? { assert Pointed(s, s.workers[i].own); }
  }

  lemma ClaimsDiffer(s: State, e: Event, i: nat, j: nat)
    requires Structure(s) && Enabled(s, e) && i < j < |Next(s, e).workers| && Claim(Next(s, e).workers[i]).Some?
    ensures Claim(Next(s, e).workers[i]) != Claim(Next(s, e).workers[j])
  {
    hide Next, Enabled, AllWired, AllPointed;
    ClaimStep(s, e, i);
    ClaimStep(s, e, j);
    if i < |s.workers| && Claim(s.workers[i]).Some? { OldClaim(s, i); }
    if j < |s.workers| && Claim(s.workers[j]).Some? { OldClaim(s, j); }
  }

  lemma QueuedDiffer(s: State, e: Event, i: nat, j: nat)
    requires Structure(s) && Enabled(s, e) && i < j < |Next(s, e).workers| && Next(s, e).workers[i].Queued?
    ensures Next(s, e).workers[i] != Next(s, e).workers[j]
  {
    hide AllPointed, SlotPaired;
    assert i < |s.workers| ==> Wired(s, s.workers[i]);
  }

  lemma UniqueStep(s: State, e: Event)
    requires Structure(s) && Enabled(s, e)
    ensures Unique(Next(s, e))
  {
    var t := Next(s, e);
    forall i, j | 0 <= i < j < |t.workers| && Claim(t.workers[i]).Some?
      ensures Claim(t.workers[i]) != Claim(t.workers[j])
    {
      ClaimsDiffer(s, e, i, j);
    }
    forall i, j | 0 <= i < j < |t.workers| && t.workers[i].Queued? ensures t.workers[i] != t.workers[j] {
      QueuedDiffer(s, e, i, j);
    }
    forall i | 0 <= i < |t.workers| && t.buff1.Some? ensures Claim(t.workers[i]) != t.buff1 {
      SlotUnclaimed(s, e, i);
    }
  }

  lemma SlotUnclaimed(s: State, e: Event, i: nat)
    requires Structure(s) && Enabled(s, e) && i < |Next(s, e).workers| && Next(s, e).buff1.Some?
    ensures Claim(Next(s, e).workers[i]) != Next(s, e).buff1
  {
    hide AllWired, AllPointed;
    ClaimStep(s, e, i);
    if e.Offer? && i < e.w { assert Claim(s.workers[i]) != Claim(s.workers[e.w]); }
  }

  lemma LinkedStays(s: State, e: Event, i: nat, r: Ref)
    requires Enabled(s, e) && IsLinked(s, i, r)
    ensures IsLinked(Next(s, e), i, r)
  {
  }

  lemma PointedOld(s: State, e: Event, r: Ref)
    requires Structure(s) && Enabled(s, e) && r in s.pointers
    ensures r in Next(s, e).pointers && Next(s, e).pointers[r] == s.pointers[r] && Pointed(Next(s, e), r)
  {
    hide IsLinked, Next;
    assert Pointed(s, r);
    var i :| IsLinked(s, i, r);
    LinkedStays(s, e, i, r);
    FrameConns(s, e, s.pointers[r]);
    Frame(s, e);
    PointedStays(s, e, r);
    if Acting(s, e) < |s.workers| { assert Wired(s, s.workers[Acting(s, e)]); }
    if Other(r) in s.pointers { PointedStays(s, e, Other(r)); }
  }

  lemma PointedNew(s: State, e: Event, r: Ref)
    requires Structure(s) && Enabled(s, e) && r in Next(s, e).pointers && r !in s.pointers
    ensures Pointed(Next(s, e), r)
    ensures forall q :: q in s.pointers ==> s.pointers[q] != Next(s, e).pointers[r]
    ensures forall q :: q in Next(s, e).pointers && q !in s.pointers ==> q == r
  {
    assert Wired(s, s.workers[e.w]);
    assert IsLinked(Next(s, e), e.w, r);
    assert forall q :: q in s.pointers ==> Pointed(s, q);
  }

  lemma PointedStep(s: State, e: Event)
    requires Structure(s) && Enabled(s, e)
    ensures AllPointed(Next(s, e))
  {
    hide Next, Enabled, Pointed, AllWired, Unique, SlotPaired;
    var t := Next(s, e);
    forall r | r in t.pointers ensures Pointed(t, r) {
      if r in s.pointers { PointedOld(s, e, r); } else { PointedNew(s, e, r); }
    }
    forall r, q | r in t.pointers && q in t.pointers && r != q ensures t.pointers[r] != t.pointers[q] {
      if r in s.pointers { PointedOld(s, e, r); } else { PointedNew(s, e, r); }
      if q in s.pointers { PointedOld(s, e, q); } else { PointedNew(s, e, q); }
    }
  }

  // ---------------------------------------------------------------- the bytes

  lemma StructureStep(s: State, e: Event)
    requires Structure(s) && Enabled(s, e)
    ensures Structure(Next(s, e))
  {
    hide Next, Enabled, AllWired, SlotPaired, Unique, AllPointed;
    WiredStep(s, e);
    SlotStep(s, e);
    UniqueStep(s, e);
    PointedStep(s, e);
  }

  // Two linked workers have different ends and so different connections on either side.
  lemma Separate(s: State, i: nat, j: nat)
    requires Structure(s) && i < |s.workers| && j < |s.workers| && i != j
    requires s.workers[i].Linked? && s.workers[j].Linked?
    ensures var a, b := s.workers[i], s.workers[j];
            && a.conn != b.conn
            && (a.other in s.pointers && b.other in s.pointers ==> s.pointers[a.other] != s.pointers[b.other])
  {
    assert Wired(s, s.workers[i]) && Wired(s, s.workers[j]);
    if i < j {
      assert Claim(s.workers[i]) != Claim(s.workers[j]);
    } else {
      assert Claim(s.workers[j]) != Claim(s.workers[i]);
    }
  }

  lemma LinkedEnds(s: State, w: Worker)
    requires Structure(s) && w.Linked? && w in s.workers
    ensures w.other == Other(w.own) && Valid(s, w.conn) && w.own in s.pointers && s.pointers[w.own] == w.conn
    ensures Source(s, w) == w.conn
    ensures w.other in s.pointers ==> Valid(s, s.pointers[w.other]) && s.pointers[w.other] != w.conn
  {
    assert Wired(s, w) && Pointed(s, w.own);
    if w.other in s.pointers { assert Pointed(s, w.other); }
  }

  // The connection behind a pointer that a step sets has seen nothing yet.
  lemma NewPointer(s: State, e: Event, r: Ref)
    requires Structure(s) && Enabled(s, e) && r in Next(s, e).pointers && r !in s.pointers
    ensures var t := Next(s, e);
            var c := t.pointers[r];
            Valid(t, c) && t.conns[c].got == [] && t.conns[c].relayed == []
  {
    assert Wired(s, s.workers[e.w]);
  }

  lemma FlowOther(s: State, e: Event, i: nat)
    requires Inv(s) && Enabled(s, e) && Structure(Next(s, e))
    requires i < |s.workers| && i != Acting(s, e) && s.workers[i].Linked?
    ensures Flow(Next(s, e), s.workers[i])
  {
    hide Next, Structure, Enabled;
    var w, t := s.workers[i], Next(s, e);
    LinkedEnds(s, w);
    Frame(s, e);
    assert t.workers[i] == w;
    LinkedEnds(t, w);
    assert Flow(s, w);
    hide AllFlow;
    OtherUntouched(s, e, i);
    if w.other in s.pointers {
      FlowFrame(s, t, w);
    } else if w.other in t.pointers {
      NewPointer(s, e, w.other);
    }
  }

  // A step of another worker changes neither what this one read nor what it wrote.
  lemma OtherUntouched(s: State, e: Event, i: nat)
    requires Inv(s) && Enabled(s, e) && i < |s.workers| && i != Acting(s, e) && s.workers[i].Linked?
    requires Valid(s, s.workers[i].conn)
    ensures var w, t := s.workers[i], Next(s, e);
            && Valid(t, w.conn) && t.conns[w.conn].got == s.conns[w.conn].got
            && (w.other in s.pointers ==>
                  && w.other in t.pointers && s.pointers[w.other] == t.pointers[w.other]
                  && Valid(s, s.pointers[w.other]) && Valid(t, s.pointers[w.other])
                  && s.conns[s.pointers[w.other]].relayed == t.conns[s.pointers[w.other]].relayed
                  && (s.conns[s.pointers[w.other]].broken ==> t.conns[s.pointers[w.other]].broken))
  {
    hide Next, Structure, AllFlow;
    var w := s.workers[i];
    LinkedEnds(s, w);
    if e.Read? || e.Write? {
      LinkedEnds(s, s.workers[e.w]);
      Separate(s, i, e.w);
    }
    hide Enabled;
    FrameConns(s, e, w.conn);
    if w.other in s.pointers {
      PointedStays(s, e, w.other);
      FrameConns(s, e, s.pointers[w.other]);
    }
  }

  lemma PointedStays(s: State, e: Event, r: Ref)
    requires Structure(s) && Enabled(s, e) && r in s.pointers
    ensures r in Next(s, e).pointers && Next(s, e).pointers[r] == s.pointers[r]
  {
    if Acting(s, e) < |s.workers| { assert Wired(s, s.workers[Acting(s, e)]); }
  }

  lemma FlowFrame(s: State, t: State, w: Worker)
    requires w.Linked? && Valid(s, w.conn) && Valid(t, w.conn)
    requires w.other in s.pointers && w.other in t.pointers && s.pointers[w.other] == t.pointers[w.other]
    requires Valid(s, s.pointers[w.other]) && Valid(t, s.pointers[w.other])
    requires t.conns[w.conn].got == s.conns[w.conn].got
    requires var a, b := s.conns[s.pointers[w.other]], t.conns[s.pointers[w.other]];
             a.relayed == b.relayed && (a.broken ==> b.broken)
    requires Flow(s, w)
    ensures Flow(t, w)
  {
  }

  lemma FlowLinking(s: State, e: Event)
    requires Inv(s) && Enabled(s, e) && (e.Dial? || e.Take?) && Structure(Next(s, e))
    ensures Flow(Next(s, e), Next(s, e).workers[e.w])
  {
    var t := Next(s, e);
    var w := t.workers[e.w];
    LinkedEnds(t, w);
    assert Wired(s, s.workers[e.w]);
    NewPointer(s, e, w.own);
    if w.other in s.pointers {
      assert Pointed(s, w.other);
      FrameConns(s, e, s.pointers[w.other]);
    }
  }

  lemma ReadNext(s: State, e: Event)
    requires Enabled(s, e) && e.Read?
    ensures var w, t := s.workers[e.w], Next(s, e);
            var c := Source(s, w);
            && t.conns == s.conns[c := s.conns[c].(got := s.conns[c].got + e.data)] && t.pointers == s.pointers
            && t.workers[e.w] == w.(phase := Writing(e.data, e.failed))
  {
  }

  lemma FlowRead(s: State, e: Event)
    requires Inv(s) && Enabled(s, e) && e.Read?
    ensures Flow(Next(s, e), Next(s, e).workers[e.w])
  {
    hide Next, Structure;
    var w, t := s.workers[e.w], Next(s, e);
    LinkedEnds(s, w);
    ReadNext(s, e);
    assert Flow(s, w);
    hide AllFlow, PassedOn;
    PassedOnByRead(s.conns[w.conn], s.conns[s.pointers[w.other]], e.data);
  }

  lemma PassedOnByRead(src: Conn, dst: Conn, data: seq<byte>)
    requires PassedOn(src, dst, 0)
    ensures var read := src.(got := src.got + data);
            PassedOn(read, dst, |data|) && read.got[|read.got| - |data|..] == data
  {
    var got := src.got + data;
    assert got[..|got| - |data|] == src.got && got[|got| - |data|..] == data;
    assert src.got[..|src.got| - 0] == src.got;
  }

  // What a write leaves behind, up to closed connections.
  lemma WriteNext(s: State, e: Event)
    requires Enabled(s, e) && e.Write? && s.pointers[s.workers[e.w].other] != s.workers[e.w].conn
    ensures var w, t := s.workers[e.w], Next(s, e);
            var d, chunk := s.pointers[w.other], w.phase.chunk;
            var dst, src := s.conns[d], s.conns[w.conn];
            var written := Written(dst, chunk, e.n);
            && |t.conns| == |s.conns| && t.pointers == s.pointers
            && t.conns[d].(closed := dst.closed) == written && t.conns[w.conn].(closed := src.closed) == src
            && (t.workers[e.w] == w.(phase := Reading) || t.workers[e.w] == w.(phase := Closed))
  {
  }

  lemma FlowWrite(s: State, e: Event)
    requires Inv(s) && Enabled(s, e) && e.Write?
    ensures Flow(Next(s, e), Next(s, e).workers[e.w])
  {
    hide Next, Structure;
    var w, t := s.workers[e.w], Next(s, e);
    LinkedEnds(s, w);
    WriteNext(s, e);
    assert Flow(s, w);
    hide AllFlow, PassedOn;
    var src, d, chunk := s.conns[w.conn], s.pointers[w.other], w.phase.chunk;
    var dst := s.conns[d];
    PassedOnByWrite(src, dst, chunk, e.n);
    var written := Written(dst, chunk, e.n);
    ClosingKeepsFlow(src, t.conns[w.conn], written, t.conns[d]);
  }

  lemma ClosingKeepsFlow(src: Conn, src2: Conn, dst: Conn, dst2: Conn)
    requires PassedOn(src, dst, 0)
    requires src2.got == src.got && dst2.relayed == dst.relayed && dst2.broken == dst.broken
    ensures PassedOn(src2, dst2, 0)
  {
  }

  lemma PassedOnByWrite(src: Conn, dst: Conn, chunk: seq<byte>, n: nat)
    requires PassedOn(src, dst, |chunk|) && src.got[|src.got| - |chunk|..] == chunk
    requires n <= |chunk| && (dst.broken ==> n == 0)
    ensures PassedOn(src, Written(dst, chunk, n), 0)
  {
    var sent := src.got[..|src.got| - |chunk|];
    assert src.got == sent + chunk && src.got[..|src.got| - 0] == src.got;
    if !dst.broken { assert dst.relayed + chunk[..n] <= sent + chunk; }
    if n == |chunk| { assert chunk[..n] == chunk; }
  }

  lemma FlowRest(s: State, e: Event)
    requires Inv(s) && Enabled(s, e) && (e.Greet? || e.Begin? || e.GiveUp?) && Next(s, e).workers[e.w].Linked?
    ensures Flow(Next(s, e), Next(s, e).workers[e.w])
  {
    var w := s.workers[e.w];
    LinkedEnds(s, w);
    assert Flow(s, w);
    hide Structure, AllFlow;
    if w.other in s.pointers { FrameConns(s, e, s.pointers[w.other]); }
  }

  lemma StepKeeps(s: State, e: Event)
    requires Inv(s) && Enabled(s, e)
    ensures Inv(Next(s, e))
  {
    hide Next, Enabled, Flow, Structure;
    var t := Next(s, e);
    StructureStep(s, e);
    Frame(s, e);
    forall i | 0 <= i < |t.workers| && t.workers[i].Linked? ensures Flow(t, t.workers[i]) {
      LinkedStep(s, e, i);
      if i != Acting(s, e) { FlowOther(s, e, i); }
      else if e.Read? { FlowRead(s, e); }
      else if e.Write? { FlowWrite(s, e); }
      else if e.Dial? || e.Take? { FlowLinking(s, e); }
      else { FlowRest(s, e); }
    }
  }

  lemma LinkedStep(s: State, e: Event, i: nat)
    requires Enabled(s, e) && i < |Next(s, e).workers| && Next(s, e).workers[i].Linked?
    ensures i < |s.workers|
    ensures i == Acting(s, e) ==> e.Read? || e.Write? || e.Dial? || e.Take? || e.Greet? || e.Begin? || e.GiveUp?
  {
  }

  // ---------------------------------------------------------------- runs

  ghost predicate IsRun(run: seq<State>, events: seq<Event>) {
    && |run| == |events| + 1 && run[0] == Start
    && forall i :: 0 <= i < |events| ==> Enabled(run[i], events[i]) && run[i + 1] == Next(run[i], events[i])
  }

  lemma {:induction false} RunInv(run: seq<State>, events: seq<Event>, n: nat)
    requires IsRun(run, events) && n < |run|
    ensures Inv(run[n])
  {
    hide Next, Enabled, Inv;
    if n > 0 {
      RunInv(run, events, n - 1);
      StepKeeps(run[n - 1], events[n - 1]);
      assert run[n - 1 + 1] == run[n];
    } else {
      StartInv();
    }
  }

  lemma StartInv()
    ensures Inv(Start)
  {
  }

  /**
   The slot is empty or holds both ends of one session, an end is served by one worker only, so a pair
   that is offered is taken by one viewer at most, and who serves one end waits for the pointer that the
   server of the other end fills.
   */
  lemma Rendezvous(run: seq<State>, events: seq<Event>, n: nat)
    requires IsRun(run, events) && n < |run|
    ensures var s := run[n];
            && (s.buff1 == None <==> s.buff2 == None)
            && (s.buff1.Some? ==> s.buff2 == Some(Other(s.buff1.value)))
            && (forall i, j :: 0 <= i < j < |s.workers| && s.workers[i].Linked? && s.workers[j].Linked? ==>
                  s.workers[i].own != s.workers[j].own && s.workers[i].conn != s.workers[j].conn)
            && (forall i :: 0 <= i < |s.workers| && s.workers[i].Linked? ==>
                  var w := s.workers[i]; w.other == Other(w.own) && w.own in s.pointers && s.pointers[w.own] == w.conn)
  {
    RunInv(run, events, n);
    var s := run[n];
    hide Inv, IsRun, AllFlow, AllPointed, Wired;
    forall i, j | 0 <= i < j < |s.workers| && s.workers[i].Linked? && s.workers[j].Linked?
      ensures s.workers[i].own != s.workers[j].own && s.workers[i].conn != s.workers[j].conn
    {
      assert Structure(s) by { InvParts(s); }
      Separate(s, i, j);
      assert Claim(s.workers[i]) != Claim(s.workers[j]);
    }
    forall i | 0 <= i < |s.workers| && s.workers[i].Linked?
      ensures var w := s.workers[i]; w.other == Other(w.own) && w.own in s.pointers && s.pointers[w.own] == w.conn
    {
      InvParts(s);
      LinkedEnds(s, s.workers[i]);
    }
    InvParts(s);
  }

  lemma InvParts(s: State)
    requires Inv(s)
    ensures Structure(s) && AllFlow(s)
  {
  }

  // The worker of an end that has a pointer, and how its relay stands.
  lemma RelayOf(s: State, r: Ref) returns (i: nat)
    requires Inv(s) && r in s.pointers
    ensures IsLinked(s, i, r) && Flow(s, s.workers[i]) && s.workers[i].conn == s.pointers[r]
      && s.workers[i].other == Other(r)
    ensures Valid(s, s.pointers[r])
  {
    hide Flow;
    assert Pointed(s, r);
    i :| IsLinked(s, i, r);
    LinkedEnds(s, s.workers[i]);
  }

  /**
   No cross-talk, whatever the sessions and the order of the steps: what the relays wrote to one end of a
   session is a prefix of what was read from the other end of the same session, and nothing at all as
   long as there is no other end.
   */
  lemma NoCrossTalk(run: seq<State>, events: seq<Event>, n: nat, r: Ref)
    requires IsRun(run, events) && n < |run| && r in run[n].pointers
    ensures var s := run[n];
            Valid(s, s.pointers[r]) &&
            var relayed := s.conns[s.pointers[r]].relayed;
            if Other(r) in s.pointers then
              Valid(s, s.pointers[Other(r)]) && relayed <= s.conns[s.pointers[Other(r)]].got
            else relayed == []
  {
    RunInv(run, events, n);
    var s := run[n];
    hide IsRun, AllWired, Unique, AllFlow;
    assert Pointed(s, r);
    if Other(r) in s.pointers {
      var i := RelayOf(s, Other(r));
    }
  }

  /** Nothing is lost either while the receiver takes whole writes: between two rounds all that was read is written. */
  lemma AllArrives(run: seq<State>, events: seq<Event>, n: nat, r: Ref)
    requires IsRun(run, events) && n < |run| && r in run[n].pointers && Other(r) in run[n].pointers
    requires Valid(run[n], run[n].pointers[r]) && Valid(run[n], run[n].pointers[Other(r)])
    requires !run[n].conns[run[n].pointers[r]].broken
    requires forall i: nat :: IsLinked(run[n], i, Other(r)) ==> !run[n].workers[i].phase.Writing?
    ensures run[n].conns[run[n].pointers[r]].relayed == run[n].conns[run[n].pointers[Other(r)]].got
  {
    RunInv(run, events, n);
    var s := run[n];
    hide IsRun, Structure, AllFlow;
    var i := RelayOf(s, Other(r));
    var got := s.conns[s.pointers[Other(r)]].got;
    assert got[..|got| - 0] == got;
  }

  // A connection no session has taken over.
  ghost predicate Silent(s: State, c: nat)
    requires c < |s.conns|
  {
    (forall r :: r in s.pointers ==> s.pointers[r] != c) ==> s.conns[c].got == [] && s.conns[c].relayed == []
  }

  lemma SilentStep(s: State, e: Event, c: nat)
    requires Inv(s) && Enabled(s, e) && c < |Next(s, e).conns| && (c < |s.conns| ==> Silent(s, c))
    ensures Silent(Next(s, e), c)
  {
    var t := Next(s, e);
    if forall r :: r in t.pointers ==> t.pointers[r] != c {
      forall r | r in s.pointers ensures s.pointers[r] != c { PointedStays(s, e, r); }
      if c < |s.conns| {
        FrameConns(s, e, c);
        if e.Read? { LinkedEnds(s, s.workers[e.w]); }
      }
    }
  }

  /** Nothing is read from or relayed to a connection outside every session. */
  lemma StrangersStaySilent(run: seq<State>, events: seq<Event>, n: nat, c: nat)
    requires IsRun(run, events) && n < |run| && c < |run[n].conns|
    requires forall r :: r in run[n].pointers ==> run[n].pointers[r] != c
    ensures run[n].conns[c].got == [] && run[n].conns[c].relayed == []
  {
    AllSilent(run, events, n, c);
  }

  lemma {:induction false} AllSilent(run: seq<State>, events: seq<Event>, n: nat, c: nat)
    requires IsRun(run, events) && n < |run| && c < |run[n].conns|
    ensures Silent(run[n], c)
  {
    hide Next, Enabled, Silent, Inv;
    if n > 0 {
      RunInv(run, events, n - 1);
      if c < |run[n - 1].conns| { AllSilent(run, events, n - 1, c); }
      SilentStep(run[n - 1], events[n - 1], c);
      assert run[n - 1 + 1] == run[n];
    }
  }

  // The greeting of a connection is that of its session, and a relay that is over leaves its connection closed.
  ghost predicate Courteous(s: State, w: Worker) {
    w.Linked? ==>
      && Valid(s, w.conn)
      && s.conns[w.conn].greeting <= Hello(w.code)
      && (w.phase.Greeting? ==> w.phase.text == Hello(w.code) && s.conns[w.conn].greeting == [])
      && (!w.phase.Greeting? ==> s.conns[w.conn].greeting == Hello(w.code) || s.conns[w.conn].broken)
      && (w.phase.Closed? ==> s.conns[w.conn].closed)
  }

  ghost predicate Ungreeted(s: State, c: nat)
    requires c < |s.conns|
  {
    (forall r :: r in s.pointers ==> s.pointers[r] != c) ==> s.conns[c].greeting == []
  }

  ghost predicate AllCourteous(s: State) {
    && (forall i :: 0 <= i < |s.workers| ==> Courteous(s, s.workers[i]))
    && (forall c :: 0 <= c < |s.conns| ==> Ungreeted(s, c))
  }

  lemma GreetingFrame(s: State, e: Event, c: nat)
    requires Enabled(s, e) && c < |s.conns|
    ensures var t := Next(s, e);
            && c < |t.conns| && (s.conns[c].closed ==> t.conns[c].closed) && (s.conns[c].broken ==> t.conns[c].broken)
            && (t.conns[c].greeting == s.conns[c].greeting || (e.Greet? && c == s.pointers[s.workers[e.w].own]))
  {
  }

  lemma CourteousStep(s: State, e: Event, i: nat)
    requires Inv(s) && AllCourteous(s) && Enabled(s, e) && i < |Next(s, e).workers|
    ensures Courteous(Next(s, e), Next(s, e).workers[i])
  {
    hide Structure, AllFlow;
    if Next(s, e).workers[i].Linked? {
      LinkedStep(s, e, i);
      assert Courteous(s, s.workers[i]);
      if i == Acting(s, e) { CourteousActing(s, e); } else { CourteousOther(s, e, i); }
    }
  }

  lemma CourteousOther(s: State, e: Event, i: nat)
    requires Inv(s) && Enabled(s, e) && i < |s.workers| && i != Acting(s, e)
    requires s.workers[i].Linked? && Courteous(s, s.workers[i])
    ensures i < |Next(s, e).workers| && Courteous(Next(s, e), Next(s, e).workers[i])
  {
    hide Next, Structure, AllFlow;
    Frame(s, e);
    GreetingFrame(s, e, s.workers[i].conn);
    LinkedEnds(s, s.workers[i]);
    if e.Greet? {
      LinkedEnds(s, s.workers[e.w]);
      Separate(s, i, e.w);
    }
  }

  lemma CourteousActing(s: State, e: Event)
    requires Inv(s) && AllCourteous(s) && Enabled(s, e) && Acting(s, e) < |s.workers|
    requires Next(s, e).workers[e.w].Linked?
    ensures Courteous(Next(s, e), Next(s, e).workers[e.w])
  {
    hide Next, Enabled, Courteous, Ungreeted, Structure, AllFlow;
    var w := s.workers[e.w];
    assert Courteous(s, w);
    if w.Linked? {
      LinkedEnds(s, w);
      CourteousRelay(s, e);
    } else {
      if w.Queued? {
        WiredAt(s, e.w);
        UngreetedAt(s, w.conn);
      }
      CourteousLinking(s, e);
    }
  }

  lemma WiredAt(s: State, i: nat)
    requires Structure(s) && i < |s.workers|
    ensures Wired(s, s.workers[i])
  {
  }

  lemma UngreetedAt(s: State, c: nat)
    requires AllCourteous(s) && c < |s.conns| && forall r :: r in s.pointers ==> s.pointers[r] != c
    ensures s.conns[c].greeting == []
  {
    assert Ungreeted(s, c);
  }

  lemma CourteousRelay(s: State, e: Event)
    requires Enabled(s, e) && Acting(s, e) < |s.workers| && s.workers[e.w].Linked? && Courteous(s, s.workers[e.w])
    requires s.workers[e.w].own in s.pointers && s.pointers[s.workers[e.w].own] == s.workers[e.w].conn
    ensures Courteous(Next(s, e), Next(s, e).workers[e.w])
  {
  }

  lemma CourteousLinking(s: State, e: Event)
    requires Enabled(s, e) && Acting(s, e) < |s.workers| && !s.workers[e.w].Linked?
    requires s.workers[e.w].Queued? ==> Valid(s, s.workers[e.w].conn) && s.conns[s.workers[e.w].conn].greeting == []
    ensures Courteous(Next(s, e), Next(s, e).workers[e.w])
  {
  }

  lemma UngreetedStep(s: State, e: Event, c: nat)
    requires Inv(s) && Enabled(s, e) && c < |Next(s, e).conns| && (c < |s.conns| ==> Ungreeted(s, c))
    ensures Ungreeted(Next(s, e), c)
  {
    var t := Next(s, e);
    if forall r :: r in t.pointers ==> t.pointers[r] != c {
      forall r | r in s.pointers ensures s.pointers[r] != c { PointedStays(s, e, r); }
      if c < |s.conns| { GreetingFrame(s, e, c); }
    }
  }

  lemma {:induction false} RunCourteous(run: seq<State>, events: seq<Event>, n: nat)
    requires IsRun(run, events) && n < |run|
    ensures AllCourteous(run[n])
  {
    hide Next, Enabled, Inv, Courteous, Ungreeted;
    if n > 0 {
      RunInv(run, events, n - 1);
      RunCourteous(run, events, n - 1);
      var s, e, t := run[n - 1], events[n - 1], run[n];
      assert t == Next(s, e) by { assert run[n - 1 + 1] == Next(s, e); }
      forall i | 0 <= i < |t.workers| ensures Courteous(t, t.workers[i]) { CourteousStep(s, e, i); }
      forall c | 0 <= c < |t.conns| ensures Ungreeted(t, c) { UngreetedStep(s, e, c); }
    }
  }

  /**
   No connection is ever greeted with another session's code: what it accepted as a greeting is the start of
   the code it was dialled with, and without a code nothing. A relay that is over has closed its connection.
   */
  lemma OwnCodeOnly(run: seq<State>, events: seq<Event>, n: nat, i: nat)
    requires IsRun(run, events) && n < |run| && i < |run[n].workers| && run[n].workers[i].Linked?
    ensures var s, w := run[n], run[n].workers[i];
            && w.conn < |s.conns|
            && s.conns[w.conn].greeting <= Hello(w.code)
            && (w.phase.Closed? ==> s.conns[w.conn].closed)
  {
    RunCourteous(run, events, n);
    assert Courteous(run[n], run[n].workers[i]);
  }

  // ---------------------------------------------------------------- who gets which end

  // What the mode of a visit says about an end: the near one carries the code.
  predicate Dials(mode: int, side: Side) {
    if side.Near? then mode == 1 || mode == 2 else mode == 1 || mode == 3
  }

  predicate Waits(mode: int, side: Side) {
    if side.Near? then mode == 3 || mode == 4 else mode == 2 || mode == 4
  }

  predicate Cast(w: Worker, k: nat, mode: int, code: seq<byte>) {
    match w
    case Dialling(own, _, c) =>
      own.session == k ==> Dials(mode, own.side) && c == if own.side.Near? then code else []
    case Offering(own, _) => own.session == k ==> Waits(mode, own.side)
    case Linked(own, _, c, _, isViewer, _) =>
      own.session == k ==>
        if isViewer then Waits(mode, own.side) && c == []
        else Dials(mode, own.side) && c == if own.side.Near? then code else []
    case _ => true
  }

  ghost predicate WellCast(s: State, k: nat, mode: int, code: seq<byte>) {
    && k < s.sessions
    && (forall i :: 0 <= i < |s.workers| ==> Cast(s.workers[i], k, mode, code))
    && (s.buff1.Some? && s.buff1.value.session == k ==> Waits(mode, s.buff1.value.side))
  }

  // A new session leaves the others alone.
  lemma CastNew(s: State, e: Event, i: nat, k: nat, mode: int, code: seq<byte>)
    requires Enabled(s, e) && k < s.sessions && |s.workers| <= i < |Next(s, e).workers|
    ensures Cast(Next(s, e).workers[i], k, mode, code)
  {
  }

  lemma CastOn(s: State, e: Event, k: nat, mode: int, code: seq<byte>)
    requires Enabled(s, e) && WellCast(s, k, mode, code) && Acting(s, e) < |s.workers|
    ensures e.w < |Next(s, e).workers| && Cast(Next(s, e).workers[e.w], k, mode, code)
  {
    hide Dials, Waits;
    assert Cast(s.workers[e.w], k, mode, code);
  }

  lemma CastSlot(s: State, e: Event, k: nat, mode: int, code: seq<byte>)
    requires Enabled(s, e) && WellCast(s, k, mode, code)
    ensures var b := Next(s, e).buff1; b.Some? && b.value.session == k ==> Waits(mode, b.value.side)
  {
    hide Dials, Waits;
    if e.Offer? { assert Cast(s.workers[e.w], k, mode, code); }
  }

  lemma CastStep(s: State, e: Event, k: nat, mode: int, code: seq<byte>)
    requires Enabled(s, e) && WellCast(s, k, mode, code)
    ensures WellCast(Next(s, e), k, mode, code)
  {
    hide Next, Enabled, Cast, Waits;
    Frame(s, e);
    CastSlot(s, e, k, mode, code);
    var t := Next(s, e);
    forall i | 0 <= i < |t.workers| ensures Cast(t.workers[i], k, mode, code) {
      if i >= |s.workers| { CastNew(s, e, i, k, mode, code); }
      else if i == Acting(s, e) { CastOn(s, e, k, mode, code); }
    }
  }

  lemma CastVisit(s: State, mode: int, code: seq<byte>)
    requires Structure(s)
    ensures WellCast(Next(s, Visit(mode, code)), s.sessions, mode, code)
  {
    var t := Next(s, Visit(mode, code));
    forall i | 0 <= i < |t.workers| ensures Cast(t.workers[i], s.sessions, mode, code) {
      if i < |s.workers| && Claim(s.workers[i]).Some? { OldClaim(s, i); }
    }
  }

  lemma {:induction false} RunCast(run: seq<State>, events: seq<Event>, v: nat, n: nat)
    requires IsRun(run, events) && v < n < |run| && events[v].Visit?
    ensures WellCast(run[n], run[v].sessions, events[v].mode, events[v].code)
    decreases n
  {
    hide Next, Enabled, WellCast, Structure, AllFlow;
    assert run[n - 1 + 1] == run[n];
    if n == v + 1 {
      RunInv(run, events, v);
      CastVisit(run[v], events[v].mode, events[v].code);
    } else {
      RunCast(run, events, v, n - 1);
      CastStep(run[n - 1], events[n - 1], run[v].sessions, events[v].mode, events[v].code);
    }
  }

  /**
   How an end of a session gets its connection. The near end is dialled in modes 1 and 2, the far end in
   modes 1 and 3; the others are taken from the slot by a local viewer. In another mode there is none.
   */
  lemma ConnectedBy(run: seq<State>, events: seq<Event>, v: nat, n: nat, side: Side)
    requires IsRun(run, events) && v < n < |events| && events[v].Visit?
    requires var r := Ref(run[v].sessions, side); r !in run[n].pointers && r in run[n + 1].pointers
    ensures var mode := events[v].mode;
            if side.Near? then (if mode == 1 || mode == 2 then events[n].Dial? else events[n].Take? && mode in {3, 4})
            else (if mode == 1 || mode == 3 then events[n].Dial? else events[n].Take? && mode in {2, 4})
  {
    RunCast(run, events, v, n);
    hide IsRun, Enabled, Next;
    var s, e := run[n], events[n];
    assert Enabled(s, e) && run[n + 1] == Next(s, e) by { RunStep(run, events, n); }
    SetsPointer(s, e, Ref(run[v].sessions, side));
    if e.Dial? { assert Cast(s.workers[e.w], run[v].sessions, events[v].mode, events[v].code); }
  }

  lemma RunStep(run: seq<State>, events: seq<Event>, n: nat)
    requires IsRun(run, events) && n < |events|
    ensures Enabled(run[n], events[n]) && run[n + 1] == Next(run[n], events[n])
  {
  }

  lemma SetsPointer(s: State, e: Event, r: Ref)
    requires Enabled(s, e) && r !in s.pointers && r in Next(s, e).pointers
    ensures e.Dial? || e.Take?
    ensures e.Dial? ==> e.w < |s.workers| && s.workers[e.w].Dialling? && s.workers[e.w].own == r
    ensures e.Take? ==> s.buff1 == Some(r)
  {
  }

  /**
   What a connection of the session is greeted with: the near end in modes 1 and 2 with the code and a line
   break, if there is a code, and with all of it unless it refused; every other end with nothing.
   */
  lemma GreetedWith(run: seq<State>, events: seq<Event>, v: nat, n: nat, i: nat)
    requires IsRun(run, events) && v < n < |run| && events[v].Visit?
    requires i < |run[n].workers| && run[n].workers[i].Linked? && run[n].workers[i].own.session == run[v].sessions
    ensures var s, w, mode, code := run[n], run[n].workers[i], events[v].mode, events[v].code;
            && w.conn < |s.conns|
            && var c := s.conns[w.conn];
               if w.own.side.Near? && (mode == 1 || mode == 2) && code != [] then
                 && c.greeting <= code + [10]
                 && (w.phase.Greeting? ==> w.phase.text == code + [10] && c.greeting == [])
                 && (!w.phase.Greeting? ==> c.greeting == code + [10] || c.broken)
               else
                 c.greeting == [] && !w.phase.Greeting?
  {
    RunCast(run, events, v, n);
    RunCourteous(run, events, n);
    RunGreets(run, events, n, i);
    hide IsRun;
    assert Cast(run[n].workers[i], run[v].sessions, events[v].mode, events[v].code);
    assert Courteous(run[n], run[n].workers[i]);
  }

  // Who has no code has nothing to say.
  predicate GreetsWithCode(w: Worker) {
    w.Linked? && w.phase.Greeting? ==> w.code != []
  }

  lemma GreetsStep(s: State, e: Event, i: nat)
    requires Enabled(s, e) && i < |Next(s, e).workers| && (i < |s.workers| ==> GreetsWithCode(s.workers[i]))
    ensures GreetsWithCode(Next(s, e).workers[i])
  {
  }

  lemma {:induction false} RunGreets(run: seq<State>, events: seq<Event>, n: nat, i: nat)
    requires IsRun(run, events) && n < |run| && i < |run[n].workers|
    ensures GreetsWithCode(run[n].workers[i])
  {
    hide Next, Enabled, GreetsWithCode;
    if n > 0 {
      RunStep(run, events, n - 1);
      if i < |run[n - 1].workers| { RunGreets(run, events, n - 1, i); }
      GreetsStep(run[n - 1], events[n - 1], i);
    }
  }

  /** A viewer that connects while a pair is offered can take it, and its connection is the offered end then. */
  lemma ViewerServed(s: State)
    requires SlotPaired(s) && s.buff1.Some?
    ensures var i, t := |s.workers|, Next(s, Accept);
            && Enabled(t, Take(i))
            && var u := Next(t, Take(i));
               && u.pointers == s.pointers[s.buff1.value := |s.conns|] && |u.conns| == |s.conns| + 1
               && u.buff1 == None && u.buff2 == None
               && u.workers[i].Linked?
               && u.workers[i].own == s.buff1.value && u.workers[i].other == Other(s.buff1.value)
  {
  }

  // The step a worker takes next, as its phase has it; what it reads or writes is for the network to say.
  ghost predicate CanStep(s: State, i: nat)
    requires i < |s.workers|
  {
    match s.workers[i]
    case Dialling(_, _, _) => Enabled(s, Dial(i)) && Enabled(s, DialFails(i))
    case Offering(_, _) => Enabled(s, Offer(i))
    case Queued(_) => if s.buff1.Some? && s.buff2.Some? then Enabled(s, Take(i)) else Enabled(s, GiveUp(i))
    case Linked(_, other, _, _, _, phase) =>
      (match phase
       case Greeting(text) => Enabled(s, Greet(i, 0)) && (CanTake(s, i) ==> Enabled(s, Greet(i, |text|)))
       case Waiting => if other in s.pointers then Enabled(s, Begin(i)) else Enabled(s, GiveUp(i))
       case Reading => forall failed :: Enabled(s, Read(i, [], failed))
       case Writing(chunk, _) => Enabled(s, Write(i, 0, true))
       case Closed => true)
    case Gone => true
  }

  // The connection that a worker greets accepts bytes.
  predicate CanTake(s: State, i: nat)
    requires i < |s.workers|
  {
    && s.workers[i].Linked? && s.workers[i].own in s.pointers && Valid(s, s.pointers[s.workers[i].own])
    && !Blocked(s.conns[s.pointers[s.workers[i].own]])
  }

  lemma LinkedCanStep(s: State, i: nat)
    requires i < |s.workers| && s.workers[i].Linked? && Valid(s, s.workers[i].conn)
    requires s.workers[i].own in s.pointers && s.pointers[s.workers[i].own] == s.workers[i].conn
    requires s.workers[i].other in s.pointers ==> Valid(s, s.pointers[s.workers[i].other])
    requires s.workers[i].phase.Reading? || s.workers[i].phase.Writing? ==> s.workers[i].other in s.pointers
    ensures CanStep(s, i)
  {
  }

  lemma RelayHasOther(s: State, i: nat)
    requires AllFlow(s) && i < |s.workers| && s.workers[i].Linked?
    ensures s.workers[i].phase.Reading? || s.workers[i].phase.Writing? ==> s.workers[i].other in s.pointers
  {
    hide PassedOn;
    assert Flow(s, s.workers[i]);
    hide AllFlow;
  }

  lemma UnlinkedCanStep(s: State, i: nat)
    requires i < |s.workers| && !s.workers[i].Linked? && (s.workers[i].Queued? ==> Valid(s, s.workers[i].conn))
    ensures CanStep(s, i)
  {
  }

  /** No thread is ever stuck: it waits only as long as it may give up. */
  lemma NobodyStuck(run: seq<State>, events: seq<Event>, n: nat, i: nat)
    requires IsRun(run, events) && n < |run| && i < |run[n].workers|
    ensures CanStep(run[n], i)
  {
    RunInv(run, events, n);
    hide IsRun, Inv, Structure, AllFlow, CanStep;
    var s := run[n];
    InvParts(s);
    if s.workers[i].Linked? {
      LinkedEnds(s, s.workers[i]);
      RelayHasOther(s, i);
      LinkedCanStep(s, i);
    } else {
      WiredAt(s, i);
      UnlinkedCanStep(s, i);
    }
  }

  /** Who gives up, a viewer without a pair or a worker without a partner, closes its connection and is done. */
  lemma GivesUp(s: State, i: nat)
    requires Enabled(s, GiveUp(i))
    ensures var t := Next(s, GiveUp(i));
            && t.conns[s.workers[i].conn].closed
            && (t.workers[i] == Gone || (t.workers[i].Linked? && t.workers[i].phase == Closed))
  {
  }

  /**
   A visit starts a thread for each end at once: one that can dial and then sets the pointer of its end, or one
   that can offer its end, together with the other one of the session.
   */
  lemma SessionStarts(s: State, mode: int, code: seq<byte>, side: Side) returns (i: nat)
    requires mode in {1, 2, 3, 4}
    ensures var t, r := Next(s, Visit(mode, code)), Ref(s.sessions, side);
            && i < |t.workers|
            && if (if side.Near? then mode in {1, 2} else mode in {1, 3}) then
                 && Enabled(t, Dial(i)) && r in Next(t, Dial(i)).pointers
               else
                 && Enabled(t, Offer(i))
                 && Next(t, Offer(i)).buff1 == Some(r) && Next(t, Offer(i)).buff2 == Some(Other(r))
  {
    i := |s.workers| + if side.Near? then 0 else 1;
  }

  // ---------------------------------------------------------------- the greeting among the relayed bytes

  predicate InOrder(c: Conn) {
    c.ahead <= c.relayed && c.accepted == c.ahead + c.greeting + c.relayed[|c.ahead|..]
  }

  lemma GreetedInOrder(c: Conn, text: seq<byte>)
    requires InOrder(c) && c.greeting == []
    ensures InOrder(c.(accepted := c.accepted + text, greeting := c.greeting + text, ahead := c.relayed))
  {
    assert c.relayed == c.ahead + c.relayed[|c.ahead|..] && c.relayed[|c.relayed|..] == [];
    assert c.accepted == c.relayed;
  }

  lemma WrittenInOrder(c: Conn, chunk: seq<byte>, n: nat)
    requires InOrder(c) && n <= |chunk|
    ensures InOrder(Written(c, chunk, n))
  {
    var data := chunk[..n];
    assert (c.relayed + data)[|c.ahead|..] == c.relayed[|c.ahead|..] + data;
  }

  // How a step changes one connection.
  lemma ConnStep(s: State, e: Event, c: nat)
    requires Enabled(s, e) && c < |s.conns|
    ensures c < |Next(s, e).conns|
    ensures var a, b := s.conns[c], Next(s, e).conns[c];
            if e.Greet? && c == s.pointers[s.workers[e.w].own] then
              var text := s.workers[e.w].phase.text[..e.n];
              SameBytes(a.(accepted := a.accepted + text, greeting := a.greeting + text, ahead := a.relayed), b)
            else if e.Write? && c == s.pointers[s.workers[e.w].other] then
              SameBytes(Written(a, s.workers[e.w].phase.chunk, e.n), b)
            else
              SameBytes(a, b)
  {
  }

  predicate SameBytes(a: Conn, b: Conn) {
    a.accepted == b.accepted && a.greeting == b.greeting && a.ahead == b.ahead && a.relayed == b.relayed
  }

  lemma NewConnStep(s: State, e: Event, c: nat)
    requires Enabled(s, e) && |s.conns| <= c < |Next(s, e).conns|
    ensures Next(s, e).conns[c] == NewConn
  {
  }

  lemma InOrderStep(s: State, e: Event, c: nat)
    requires Inv(s) && AllCourteous(s) && Enabled(s, e) && c < |Next(s, e).conns|
      && (c < |s.conns| ==> InOrder(s.conns[c]))
    ensures InOrder(Next(s, e).conns[c])
  {
    hide Next, Inv;
    if c < |s.conns| {
      ConnStep(s, e, c);
      if e.Greet? && c == s.pointers[s.workers[e.w].own] {
        var w := s.workers[e.w];
        assert Courteous(s, w);
        InvParts(s);
        LinkedEnds(s, w);
        GreetedInOrder(s.conns[c], w.phase.text[..e.n]);
      } else if e.Write? && c == s.pointers[s.workers[e.w].other] {
        WrittenInOrder(s.conns[c], s.workers[e.w].phase.chunk, e.n);
      }
    } else {
      NewConnStep(s, e, c);
    }
  }

  lemma {:induction false} AllInOrder(run: seq<State>, events: seq<Event>, n: nat, c: nat)
    requires IsRun(run, events) && n < |run| && c < |run[n].conns|
    ensures InOrder(run[n].conns[c])
  {
    hide Next, Enabled, Inv, InOrder, AllCourteous;
    if n > 0 {
      RunInv(run, events, n - 1);
      RunCourteous(run, events, n - 1);
      if c < |run[n - 1].conns| { AllInOrder(run, events, n - 1, c); }
      InOrderStep(run[n - 1], events[n - 1], c);
      assert run[n - 1 + 1] == run[n];
    }
  }

  /** A relay writes to connection `c`, which accepts some of it. */
  predicate WritesTo(s: State, e: Event, c: nat) {
    && e.Write? && e.n > 0 && c < |s.conns|
    && e.w < |s.workers| && s.workers[e.w].Linked?
    && s.workers[e.w].other in s.pointers && s.pointers[s.workers[e.w].other] == c
  }

  lemma RelayedStep(s: State, e: Event, c: nat)
    requires Enabled(s, e) && c < |Next(s, e).conns|
    ensures Next(s, e).conns[c].relayed == [] <==>
              (c < |s.conns| ==> s.conns[c].relayed == []) && !WritesTo(s, e, c)
  {
    hide Next;
    if c < |s.conns| { ConnStep(s, e, c); } else { NewConnStep(s, e, c); }
  }

  lemma {:induction false} RelayedNothingYet(run: seq<State>, events: seq<Event>, n: nat, c: nat)
    requires IsRun(run, events) && n < |run|
    ensures (c < |run[n].conns| ==> run[n].conns[c].relayed == [])
            <==> forall j :: 0 <= j < n ==> !WritesTo(run[j], events[j], c)
  {
    hide Next, Enabled, WritesTo;
    if n > 0 {
      RelayedNothingYet(run, events, n - 1, c);
      Frame(run[n - 1], events[n - 1]);
      assert run[n - 1 + 1] == run[n];
      if c < |run[n].conns| {
        RelayedStep(run[n - 1], events[n - 1], c);
      } else {
        NoConnNoWrite(run[n - 1], events[n - 1], c);
      }
    }
  }

  lemma NoConnNoWrite(s: State, e: Event, c: nat)
    requires |s.conns| <= c
    ensures !WritesTo(s, e, c)
  {
  }

  // A worker that has sent its greeting, and its connection.
  predicate Greeted(s: State, i: nat, c: nat) {
    i < |s.workers| && s.workers[i].Linked? && !s.workers[i].phase.Greeting? && s.workers[i].conn == c && c < |s.conns|
  }

  lemma GreetedStep(s: State, e: Event, i: nat, c: nat)
    requires Inv(s) && Enabled(s, e) && Greeted(s, i, c)
    ensures Greeted(Next(s, e), i, c) && Next(s, e).conns[c].ahead == s.conns[c].ahead
  {
    hide Inv, Next;
    InvParts(s);
    hide Structure;
    ConnStep(s, e, c);
    PhaseStep(s, e, i);
    if e.Greet? {
      LinkedEnds(s, s.workers[e.w]);
      if i != e.w { Separate(s, i, e.w); }
    }
  }

  lemma PhaseStep(s: State, e: Event, i: nat)
    requires Enabled(s, e) && i < |s.workers| && s.workers[i].Linked? && !s.workers[i].phase.Greeting?
    ensures i < |Next(s, e).workers|
    ensures var w := Next(s, e).workers[i]; w.Linked? && !w.phase.Greeting? && w.conn == s.workers[i].conn
  {
  }

  lemma GreetStep(s: State, e: Event)
    requires Inv(s) && Enabled(s, e) && e.Greet?
    ensures var c := s.workers[e.w].conn;
            c < |s.conns| && Greeted(Next(s, e), e.w, c) && Next(s, e).conns[c].ahead == s.conns[c].relayed
  {
    hide Inv, Next;
    InvParts(s);
    LinkedEnds(s, s.workers[e.w]);
    ConnStep(s, e, s.workers[e.w].conn);
    GreetPhase(s, e);
  }

  lemma GreetPhase(s: State, e: Event)
    requires Enabled(s, e) && e.Greet?
    ensures e.w < |Next(s, e).workers|
    ensures var w := Next(s, e).workers[e.w]; w.Linked? && w.phase.Waiting? && w.conn == s.workers[e.w].conn
  {
  }

  lemma {:induction false} AheadStays(run: seq<State>, events: seq<Event>, g: nat, n: nat)
    requires IsRun(run, events) && g < n < |run| && events[g].Greet?
    requires events[g].w < |run[g].workers| && run[g].workers[events[g].w].Linked?
    ensures var i := events[g].w;
            var c := run[g].workers[i].conn;
            c < |run[g].conns| && Greeted(run[n], i, c) && run[n].conns[c].ahead == run[g].conns[c].relayed
    decreases n
  {
    hide Next, Enabled, Inv, Greeted;
    RunInv(run, events, n - 1);
    assert run[n - 1 + 1] == run[n];
    if n == g + 1 {
      GreetStep(run[g], events[g]);
    } else {
      AheadStays(run, events, g, n - 1);
      GreetedStep(run[n - 1], events[n - 1], events[g].w, run[g].workers[events[g].w].conn);
    }
  }

  /**
   What a connection that was greeted at step `g` has accepted: relayed bytes, the greeting, more relayed
   bytes. The code comes first exactly if no relay wrote to this connection before it was greeted.
   */
  lemma CodeFirstExactly(run: seq<State>, events: seq<Event>, g: nat, n: nat)
    requires IsRun(run, events) && g < n < |run| && events[g].Greet?
    ensures var s := run[n];
            && events[g].w < |s.workers| && s.workers[events[g].w].Linked? && s.workers[events[g].w].conn < |s.conns|
            && var c := s.workers[events[g].w].conn;
               var conn := s.conns[c];
               && conn.ahead <= conn.relayed
               && conn.accepted == conn.ahead + conn.greeting + conn.relayed[|conn.ahead|..]
               && (conn.ahead == [] <==> forall j :: 0 <= j < g ==> !WritesTo(run[j], events[j], c))
  {
    hide Next, Inv, WritesTo;
    assert Enabled(run[g], events[g]);
    AheadStays(run, events, g, n);
    var c := run[g].workers[events[g].w].conn;
    AllInOrder(run, events, n, c);
    RelayedNothingYet(run, events, g, c);
  }

  function Last(run: seq<State>): (s: State)
    requires run != []
  {
    run[|run| - 1]
  }

  lemma Extend(run: seq<State>, events: seq<Event>, e: Event, r: State) returns (longer: seq<State>, more: seq<Event>)
    requires run != [] && IsRun(run, events) && Enabled(Last(run), e) && r == Next(Last(run), e)
    ensures run <= longer && events <= more && longer != [] && IsRun(longer, more) && Last(longer) == r
  {
    hide Next, Enabled;
    longer, more := run + [r], events + [e];
  }

  lemma Begins() returns (run: seq<State>, events: seq<Event>)
    ensures run != [] && IsRun(run, events) && Last(run) == Start
  {
    run, events := [Start], [];
  }

  /** Such a run exists: the other end is read and passed on between the dialling and the greeting. */
  lemma DataBeforeCode() returns (run: seq<State>, events: seq<Event>)
    ensures run != [] && IsRun(run, events) && |Last(run).conns| == 2
    ensures Last(run).conns[0].accepted == [7] && Last(run).conns[0].greeting == []
    ensures |Last(run).workers| == 2 && Last(run).workers[0].Linked?
    ensures Last(run).workers[0].conn == 0 && Last(run).workers[0].phase == Greeting(Hello([65]))
  {
    hide IsRun, Last, Structure, AllFlow;
    var near, far := Ref(0, Near), Ref(0, Far);
    var hello := Greeting(Hello([65]));
    var one := map[near := 0];
    var both := one[far := 1];
    var server := Linked(near, far, [65], 0, false, hello);
    var viewer := Linked(far, near, [], 1, false, Waiting);
    run, events := Begins();
    run, events := Extend(run, events, Visit(1, [65]),
                          State(1, map[], [], None, None, [Dialling(near, far, [65]), Dialling(far, near, [])]));
    run, events := Extend(run, events, Dial(0),
                          State(1, one, [NewConn], None, None, [server, Dialling(far, near, [])]));
    run, events := Extend(run, events, Dial(1), State(1, both, [NewConn, NewConn], None, None, [server, viewer]));
    run, events := Extend(run, events, Begin(1),
                          State(1, both, [NewConn, NewConn], None, None, [server, viewer.(phase := Reading)]));
    var read := NewConn.(got := [7]);
    assert [] + [7] == [7];
    run, events := Extend(run, events, Read(1, [7], false),
                          State(1, both, [NewConn, read], None, None, [server, viewer.(phase := Writing([7], false))]));
    var written := Written(NewConn, [7], 1);
    assert [7][..1] == [7];
    run, events := Extend(run, events, Write(1, 1, false),
                          State(1, both, [written, read], None, None, [server, viewer.(phase := Reading)]));
  }

  // ---------------------------------------------------------------- a relay can go on, and when it ends

  /**
   A round ends the relay exactly when nothing was read, nothing was written, or both failed; it closes both
   connections then and neither otherwise.
   */
  lemma EndsExactly(s: State, e: Event)
    requires Inv(s) && Enabled(s, e) && e.Write?
    ensures var w, t := s.workers[e.w], Next(s, e);
            && var d := s.pointers[w.other];
               if w.phase.chunk == [] || e.n == 0 || (w.phase.failed && e.failed) then
                 t.workers[e.w].phase == Closed && t.conns[d].closed && t.conns[w.conn].closed
               else
                 && t.workers[e.w].phase == Reading
                 && t.conns[d].closed == s.conns[d].closed && t.conns[w.conn].closed == s.conns[w.conn].closed
  {
    hide AllFlow;
    LinkedEnds(s, s.workers[e.w]);
    hide Structure;
  }

  // A worker whose pair is complete and that is not in the middle of a round.
  predicate Ready(s: State, i: nat) {
    && i < |s.workers| && s.workers[i].Linked? && s.workers[i].other in s.pointers
    && (s.workers[i].phase.Waiting? || s.workers[i].phase.Reading?)
  }

  lemma RoundBegins(s: State, i: nat)
    requires Ready(s, i) && s.workers[i].phase.Waiting?
    ensures Enabled(s, Begin(i))
    ensures var t := Next(s, Begin(i)); t == s.(workers := s.workers[i := s.workers[i].(phase := Reading)])
  {
  }

  lemma Round(s: State, i: nat, data: seq<byte>)
    requires Ready(s, i) && s.workers[i].phase.Reading? && s.workers[i].own in s.pointers && data != []
    requires Source(s, s.workers[i]) == s.workers[i].conn && s.pointers[s.workers[i].other] != s.workers[i].conn
    requires Valid(s, s.workers[i].conn) && Valid(s, s.pointers[s.workers[i].other])
    requires !s.conns[s.workers[i].conn].closed && !Blocked(s.conns[s.pointers[s.workers[i].other]])
    ensures Enabled(s, Read(i, data, false))
    ensures var t := Next(s, Read(i, data, false));
            && Enabled(t, Write(i, |data|, false))
            && var u := Next(t, Write(i, |data|, false));
               var d := s.pointers[s.workers[i].other];
               && Ready(u, i) && u.workers[i].phase.Reading? && u.pointers == s.pointers
               && u.conns[d].relayed == s.conns[d].relayed + data
               && u.conns[d].accepted == s.conns[d].accepted + data
  {
    assert data[..|data|] == data;
  }

  // Both ends can be used.
  predicate Open(s: State, w: Worker) {
    && w.Linked? && w.other in s.pointers && Valid(s, w.conn) && Valid(s, s.pointers[w.other])
    && !s.conns[w.conn].closed && !Blocked(s.conns[s.pointers[w.other]])
  }

  lemma RoundOf(s: State, i: nat, data: seq<byte>)
    requires Inv(s) && Ready(s, i) && s.workers[i].phase.Reading? && Open(s, s.workers[i]) && data != []
    ensures Enabled(s, Read(i, data, false))
    ensures var t := Next(s, Read(i, data, false));
            && Enabled(t, Write(i, |data|, false))
            && var u := Next(t, Write(i, |data|, false));
               var d := s.pointers[s.workers[i].other];
               && d < |u.conns| && u.pointers == s.pointers
               && u.conns[d].relayed == s.conns[d].relayed + data
               && u.conns[d].accepted == s.conns[d].accepted + data
  {
    hide Next, Enabled, AllFlow;
    LinkedEnds(s, s.workers[i]);
    hide Structure;
    Round(s, i, data);
    var t := Next(s, Read(i, data, false));
    ConnsStay(s, Read(i, data, false));
    ConnsStay(t, Write(i, |data|, false));
  }

  lemma RelayRound(run: seq<State>, events: seq<Event>, i: nat, data: seq<byte>)
    returns (longer: seq<State>, more: seq<Event>)
    requires run != [] && IsRun(run, events) && Ready(Last(run), i) && Last(run).workers[i].phase.Reading?
    requires Open(Last(run), Last(run).workers[i]) && data != []
    ensures run <= longer && events <= more && longer != [] && IsRun(longer, more)
    ensures var s, t := Last(run), Last(longer);
            var d := s.pointers[s.workers[i].other];
            && d < |t.conns| && t.pointers == s.pointers
            && t.conns[d].relayed == s.conns[d].relayed + data && t.conns[d].accepted == s.conns[d].accepted + data
  {
    LastInv(run, events);
    hide IsRun, Last, Next, Enabled, Inv;
    var s := Last(run);
    RoundOf(s, i, data);
    var t := Next(s, Read(i, data, false));
    longer, more := Extend(run, events, Read(i, data, false), t);
    longer, more := Extend(longer, more, Write(i, |data|, false), Next(t, Write(i, |data|, false)));
  }

  /**
   From every reachable state any data that comes next at one end of a complete session can be passed on to the
   other end, as long as that end accepts something.
   */
  lemma CanRelay(run: seq<State>, events: seq<Event>, i: nat, data: seq<byte>)
    returns (longer: seq<State>, more: seq<Event>)
    requires run != [] && IsRun(run, events) && Ready(Last(run), i)
    requires Open(Last(run), Last(run).workers[i]) && data != []
    ensures run <= longer && events <= more && longer != [] && IsRun(longer, more)
    ensures var s, t := Last(run), Last(longer);
            var d := s.pointers[s.workers[i].other];
            && d < |t.conns| && t.pointers == s.pointers
            && t.conns[d].relayed == s.conns[d].relayed + data && t.conns[d].accepted == s.conns[d].accepted + data
  {
    hide IsRun, Last, Next, Enabled;
    var s := Last(run);
    if s.workers[i].phase.Waiting? {
      RoundBegins(s, i);
      longer, more := Extend(run, events, Begin(i), Next(s, Begin(i)));
      longer, more := RelayRound(longer, more, i, data);
    } else {
      longer, more := RelayRound(run, events, i, data);
    }
  }

  lemma ConnsStay(s: State, e: Event)
    requires Enabled(s, e)
    ensures |s.conns| <= |Next(s, e).conns|
  {
  }

  lemma LastInv(run: seq<State>, events: seq<Event>)
    requires run != [] && IsRun(run, events)
    ensures Inv(Last(run))
  {
    RunInv(run, events, |run| - 1);
  }
}
