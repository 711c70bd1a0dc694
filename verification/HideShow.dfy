/**
 While somebody is connected the local panels hide the password. `hideInfo` and `showInfo` change the
 counter under a mutex, but test it after the mutex is released, and then write to one panel after the
 other (internal/pkg/processor/main.go). Every one of these is a step of its own here.
 */
module HideShow {

  datatype Phase =
    | Entered            // counted, the test of hideInfo is still to come
    | Hiding(next: nat)  // hiding, and the panels below `next` have been told
    | Relaying
    | Left               // not counted any more, the test of showInfo is still to come
    | Showing(next: nat)
    | Gone

  /** `hidden` is the last message that was sent to each panel. */
  datatype State = State(count: int, hidden: seq<bool>, phases: map<nat, Phase>)

  datatype Event =
    | Enter(t: nat)
    | TestHide(t: nat)
    | SendHide(t: nat)
    | Leave(t: nat)
    | TestShow(t: nat)
    | SendShow(t: nat)

  ghost predicate IsStart(s: State) {
    s.count == 0 && s.phases == map[] && forall p :: 0 <= p < |s.hidden| ==> !s.hidden[p]
  }

  predicate Enabled(s: State, e: Event) {
    if e.Enter? then e.t !in s.phases else
      e.t in s.phases &&
      match e
      case TestHide(t) => s.phases[t].Entered?
      case SendHide(t) => s.phases[t].Hiding?
      case Leave(t) => s.phases[t].Relaying?
      case TestShow(t) => s.phases[t].Left?
      case SendShow(t) => s.phases[t].Showing?
      case Enter(_) => false
  }

  // A broadcast goes from panel to panel; behind the last one the thread goes on.
  function Next(s: State, e: Event): (r: State)
    requires Enabled(s, e)
  {
    match e
    case Enter(t) => State(s.count + 1, s.hidden, s.phases[t := Entered])
    case TestHide(t) => s.(phases := s.phases[t := if s.count > 0 then Hiding(0) else Relaying])
    case SendHide(t) =>
      var p := s.phases[t].next;
      if p < |s.hidden| then s.(hidden := s.hidden[p := true], phases := s.phases[t := Hiding(p + 1)])
      else s.(phases := s.phases[t := Relaying])
    case Leave(t) => State(s.count - 1, s.hidden, s.phases[t := Left])
    case TestShow(t) => s.(phases := s.phases[t := if s.count == 0 then Showing(0) else Gone])
    case SendShow(t) =>
      var p := s.phases[t].next;
      if p < |s.hidden| then s.(hidden := s.hidden[p := false], phases := s.phases[t := Showing(p + 1)])
      else s.(phases := s.phases[t := Gone])
  }

  predicate IsCounted(p: Phase) {
    p.Entered? || p.Hiding? || p.Relaying?
  }

  function Connected(s: State): (ts: set<nat>) {
    set t | t in s.phases && IsCounted(s.phases[t])
  }

  // Somebody is still going to tell panel `p` to show.
  predicate WillShow(ph: Phase, p: nat) {
    ph.Left? || (ph.Showing? && ph.next <= p)
  }

  ghost predicate Settled(s: State, p: nat)
    requires p < |s.hidden|
  {
    s.count == 0 ==> !s.hidden[p] || exists t :: t in s.phases && WillShow(s.phases[t], p)
  }

  ghost predicate Inv(s: State) {
    && s.count == |Connected(s)|
    && forall p :: 0 <= p < |s.hidden| ==> Settled(s, p)
  }

  lemma ConnectedStep(s: State, e: Event)
    requires Enabled(s, e)
    ensures var c := Connected(Next(s, e));
            match e
            case Enter(t) => c == Connected(s) + {t} && t !in Connected(s)
            case Leave(t) => c == Connected(s) - {t} && t in Connected(s)
            case TestHide(t) => c == Connected(s) && t in Connected(s)
            case SendHide(t) => c == Connected(s) && t in Connected(s)
            case _ => c == Connected(s)
  {
  }

  lemma CountStep(s: State, e: Event)
    requires s.count == |Connected(s)| && Enabled(s, e)
    ensures Next(s, e).count == |Connected(Next(s, e))|
    ensures e.TestHide? || e.SendHide? ==> s.count > 0
  {
    hide Connected;
    ConnectedStep(s, e);
  }

  lemma SettledStep(s: State, e: Event, p: nat)
    requires s.count == |Connected(s)| && Enabled(s, e) && p < |s.hidden| && Settled(s, p)
    ensures Settled(Next(s, e), p)
  {
    hide Connected;
    CountStep(s, e);
    var r := Next(s, e);
    if r.count == 0 && r.hidden[p] {
      if e.Leave? {
        assert WillShow(r.phases[e.t], p);
      } else {
        var t :| t in s.phases && WillShow(s.phases[t], p);
        assert WillShow(r.phases[t], p);
      }
    }
  }

  lemma StepKeeps(s: State, e: Event)
    requires Inv(s) && Enabled(s, e)
    ensures Inv(Next(s, e))
  {
    hide Settled;
    CountStep(s, e);
    forall p | 0 <= p < |Next(s, e).hidden| ensures Settled(Next(s, e), p) {
      SettledStep(s, e, p);
    }
  }

  ghost predicate IsRun(run: seq<State>, events: seq<Event>) {
    && |run| == |events| + 1 && IsStart(run[0])
    && forall i :: 0 <= i < |events| ==> Enabled(run[i], events[i]) && run[i + 1] == Next(run[i], events[i])
  }

  lemma {:induction false} RunInv(run: seq<State>, events: seq<Event>, n: nat)
    requires IsRun(run, events) && n < |run|
    ensures Inv(run[n]) && |run[n].hidden| == |run[0].hidden|
  {
    hide Next, Enabled;
    if n == 0 {
      assert Connected(run[0]) == {};
    } else {
      RunInv(run, events, n - 1);
      StepKeeps(run[n - 1], events[n - 1]);
      PanelsStay(run[n - 1], events[n - 1]);
      assert run[n - 1 + 1] == run[n];
    }
  }

  lemma PanelsStay(s: State, e: Event)
    requires Enabled(s, e)
    ensures |Next(s, e).hidden| == |s.hidden|
  {
  }

  /** The counter is the number of connections between their increment and their decrement, so never negative. */
  lemma CountIsConnected(run: seq<State>, events: seq<Event>, n: nat)
    requires IsRun(run, events) && n < |run|
    ensures run[n].count == |Connected(run[n])| >= 0
  {
    RunInv(run, events, n);
  }

  /** When all connections have gone, the last message sent to any panel was to show the password. */
  lemma ShownInTheEnd(run: seq<State>, events: seq<Event>, n: nat)
    requires IsRun(run, events) && n < |run|
    requires forall t :: t in run[n].phases ==> run[n].phases[t].Gone?
    ensures run[n].count == 0 && forall p :: 0 <= p < |run[n].hidden| ==> !run[n].hidden[p]
  {
    RunInv(run, events, n);
    assert Connected(run[n]) == {};
    forall p | 0 <= p < |run[n].hidden| ensures !run[n].hidden[p] {
      assert Settled(run[n], p);
    }
  }

  // ---------------------------------------------------------------- late broadcasts

  // A connection that has told panel `p` to hide and is still counted.
  predicate Relies(ph: Phase, p: nat) {
    ph.Relaying? || (ph.Hiding? && p < ph.next)
  }

  /** Every panel a live connection has told to hide does hide. */
  ghost predicate Masked(s: State) {
    forall t, p | t in s.phases && 0 <= p < |s.hidden| && Relies(s.phases[t], p) :: s.hidden[p]
  }

  /** A show message that was decided on before a later connection told the same panel to hide. */
  ghost predicate Late(s: State, e: Event) {
    && e.SendShow? && e.t in s.phases && s.phases[e.t].Showing?
    && s.phases[e.t].next < |s.hidden|
    && exists t :: t in s.phases && Relies(s.phases[t], s.phases[e.t].next)
  }

  lemma MaskedStep(s: State, e: Event)
    requires s.count == |Connected(s)| && Enabled(s, e) && Masked(s)
    ensures Masked(Next(s, e)) <==> !Late(s, e)
  {
    hide Connected;
    CountStep(s, e);
    var r := Next(s, e);
    if Late(s, e) {
      var p := s.phases[e.t].next;
      var t :| t in s.phases && Relies(s.phases[t], p);
      assert t in r.phases && Relies(r.phases[t], p) && !r.hidden[p];
    } else {
      forall t, p | t in r.phases && 0 <= p < |r.hidden| && Relies(r.phases[t], p) ensures r.hidden[p] {
        assert t in s.phases;
        assert Relies(s.phases[t], p) || (e.SendHide? && e.t == t);
      }
    }
  }

  lemma {:induction false} MaskedUpTo(run: seq<State>, events: seq<Event>, n: nat)
    requires IsRun(run, events) && n < |run|
    requires forall i :: 0 <= i < |events| ==> !Late(run[i], events[i])
    ensures Masked(run[n])
  {
    hide Next, Enabled, Masked, Late;
    if n > 0 {
      MaskedUpTo(run, events, n - 1);
      RunInv(run, events, n - 1);
      MaskedStep(run[n - 1], events[n - 1]);
      assert run[n - 1 + 1] == run[n];
    } else {
      NobodyYet(run[0]);
    }
  }

  lemma NobodyYet(s: State)
    requires IsStart(s)
    ensures Masked(s)
  {
  }

  // ---------------------------------------------------------------- which schedules mask

  /** A thread has a show message to send to some panel. */
  ghost predicate SomebodyShows(s: State) {
    exists t :: t in s.phases && s.phases[t].Showing? && s.phases[t].next < |s.hidden|
  }

  // While a show message is still to be sent nobody is connected.
  ghost predicate ShowsAlone(s: State) {
    SomebodyShows(s) ==> s.count == 0
  }

  lemma ShowsAloneStep(s: State, e: Event)
    requires s.count == |Connected(s)| && ShowsAlone(s) && Enabled(s, e)
    requires e.Enter? ==> !SomebodyShows(s)
    ensures ShowsAlone(Next(s, e)) && !Late(s, e)
  {
    hide Connected;
    CountStep(s, e);
    ConnectedStep(s, e);
    var r := Next(s, e);
    if t :| t in r.phases && r.phases[t].Showing? && r.phases[t].next < |r.hidden| {
      if !e.TestShow? || e.t != t {
        assert t in s.phases && s.phases[t].Showing? && s.phases[t].next < |s.hidden|;
      }
    }
    if Late(s, e) {
      assert s.phases[e.t].Showing?;
      var t :| t in s.phases && Relies(s.phases[t], s.phases[e.t].next);
      ReliesIsConnected(s, t, s.phases[e.t].next);
      assert false;
    }
  }

  lemma ReliesIsConnected(s: State, t: nat, p: nat)
    requires t in s.phases && Relies(s.phases[t], p)
    ensures |Connected(s)| > 0
  {
    assert t in Connected(s);
  }

  lemma {:induction false} ShowsAloneUpTo(run: seq<State>, events: seq<Event>, n: nat)
    requires IsRun(run, events) && n < |run|
    requires forall i :: 0 <= i < |events| && events[i].Enter? ==> !SomebodyShows(run[i])
    ensures ShowsAlone(run[n])
  {
    hide Next, Enabled, ShowsAlone, SomebodyShows;
    if n > 0 {
      ShowsAloneUpTo(run, events, n - 1);
      RunInv(run, events, n - 1);
      ShowsAloneStep(run[n - 1], events[n - 1]);
      assert run[n - 1 + 1] == run[n];
    } else {
      NobodyShows(run[0]);
    }
  }

  lemma NobodyShows(s: State)
    requires IsStart(s)
    ensures ShowsAlone(s)
  {
  }

  /**
   If no connection is counted while a show message is still to be sent to some panel, no panel is told to
   show as long as a connection that told it to hide is there.
   */
  lemma MaskedUnlessOverlapping(run: seq<State>, events: seq<Event>, n: nat)
    requires IsRun(run, events) && n < |run|
    requires forall i :: 0 <= i < |events| && events[i].Enter? ==> !SomebodyShows(run[i])
    ensures Masked(run[n])
  {
    hide Next, Enabled, ShowsAlone, SomebodyShows, Late, Masked;
    forall i | 0 <= i < |events| ensures !Late(run[i], events[i]) {
      RunInv(run, events, i);
      ShowsAloneUpTo(run, events, i);
      ShowsAloneStep(run[i], events[i]);
    }
    MaskedUpTo(run, events, n);
  }

  function Last(run: seq<State>): (s: State)
    requires run != []
  {
    run[|run| - 1]
  }

  lemma Extend(run: seq<State>, events: seq<Event>, e: Event, r: State) returns (longer: seq<State>, more: seq<Event>)
    requires run != [] && IsRun(run, events) && Enabled(Last(run), e) && r == Next(Last(run), e)
    ensures run <= longer && events <= more && longer != [] && IsRun(longer, more) && Last(longer) == r
  {
    hide Next, Enabled;
    longer, more := run + [r], events + [e];
  }

  lemma {:induction false} NewThread(ts: set<nat>) returns (u: nat)
    ensures u !in ts && forall t :: t in ts ==> t < u
  {
    if ts == {} {
      u := 0;
    } else {
      var t :| t in ts;
      var v := NewThread(ts - {t});
      u := if v > t then v else t + 1;
      forall x | x in ts ensures x < u { assert x == t || x in ts - {t}; }
    }
  }

  // A new connection that has told the panels below `p` to hide tells one more.
  lemma HideNext(s: State, u: nat, p: nat)
    requires u in s.phases && s.phases[u] == Hiding(p) && p < |s.hidden|
    ensures Enabled(s, SendHide(u)) && Next(s, SendHide(u))
            == s.(hidden := s.hidden[p := true], phases := s.phases[u := Hiding(p + 1)])
  {
  }

  lemma {:induction false} HideUpTo(run: seq<State>, events: seq<Event>, t: nat, u: nat, p: nat)
    returns (longer: seq<State>, more: seq<Event>)
    requires run != [] && IsRun(run, events)
    requires t in Last(run).phases && Last(run).phases[t].Showing? && t != u && p <= |Last(run).hidden|
    requires u in Last(run).phases && Last(run).phases[u] == Hiding(0)
    ensures run <= longer && events <= more && longer != [] && IsRun(longer, more)
    ensures |Last(longer).hidden| == |Last(run).hidden|
    ensures t in Last(longer).phases && Last(longer).phases[t] == Last(run).phases[t]
    ensures u in Last(longer).phases && Last(longer).phases[u] == Hiding(p)
  {
    hide IsRun, Last, Next, Enabled;
    if p == 0 {
      longer, more := run, events;
    } else {
      longer, more := HideUpTo(run, events, t, u, p - 1);
      var s := Last(longer);
      HideNext(s, u, p - 1);
      longer, more := Extend(longer, more, SendHide(u), Next(s, SendHide(u)));
    }
  }

  /**
   And only then: whenever a show message is still to be sent to some panel, a connection may begin that
   leaves this panel showing although it was told to hide.
   */
  lemma OverlappingUnmasks(run: seq<State>, events: seq<Event>) returns (longer: seq<State>, more: seq<Event>)
    requires run != [] && IsRun(run, events) && SomebodyShows(Last(run))
    ensures run <= longer && events <= more && longer != [] && IsRun(longer, more) && !Masked(Last(longer))
  {
    hide IsRun, Last, Next, Enabled, Masked, Connected;
    var s := Last(run);
    var t :| t in s.phases && s.phases[t].Showing? && s.phases[t].next < |s.hidden|;
    var p := s.phases[t].next;
    var u := NewThread(s.phases.Keys);
    Counted(run, events);
    EnterAndTest(s, u);
    var s1 := Next(s, Enter(u));
    longer, more := Extend(run, events, Enter(u), s1);
    longer, more := Extend(longer, more, TestHide(u), Next(s1, TestHide(u)));
    longer, more := HideUpTo(longer, more, t, u, p + 1);
    ShowLate(Last(longer), t, u);
    longer, more := Extend(longer, more, SendShow(t), Next(Last(longer), SendShow(t)));
  }

  lemma Counted(run: seq<State>, events: seq<Event>)
    requires run != [] && IsRun(run, events)
    ensures Last(run).count >= 0
  {
    CountIsConnected(run, events, |run| - 1);
  }

  lemma EnterAndTest(s: State, u: nat)
    requires u !in s.phases && s.count >= 0
    ensures Enabled(s, Enter(u))
    ensures var r := Next(s, Enter(u));
            && Enabled(r, TestHide(u))
            && Next(r, TestHide(u)) == State(s.count + 1, s.hidden, s.phases[u := Hiding(0)])
  {
    var r := Next(s, Enter(u));
    assert r.phases[u := Hiding(0)] == s.phases[u := Hiding(0)];
  }

  lemma ShowLate(s: State, t: nat, u: nat)
    requires t in s.phases && s.phases[t].Showing? && s.phases[t].next < |s.hidden| && t != u
    requires u in s.phases && s.phases[u] == Hiding(s.phases[t].next + 1)
    ensures Enabled(s, SendShow(t)) && !Masked(Next(s, SendShow(t)))
  {
    var r, p := Next(s, SendShow(t)), s.phases[t].next;
    assert Relies(r.phases[u], p) && !r.hidden[p];
  }

  /** Such a run exists: one connection ends, a second one hides, and the first one's show message comes last. */
  lemma LateMessage() returns (run: seq<State>, events: seq<Event>)
    ensures run != [] && IsRun(run, events) && !Masked(Last(run))
  {
    hide IsRun, Last;
    run, events := Begin();
    run, events := Extend(run, events, Enter(0), State(1, [false], map[0 := Entered]));
    run, events := Extend(run, events, TestHide(0), State(1, [false], map[0 := Hiding(0)]));
    run, events := Extend(run, events, SendHide(0), State(1, [true], map[0 := Hiding(1)]));
    run, events := Extend(run, events, SendHide(0), State(1, [true], map[0 := Relaying]));
    run, events := Extend(run, events, Leave(0), State(0, [true], map[0 := Left]));
    run, events := Extend(run, events, TestShow(0), State(0, [true], map[0 := Showing(0)]));
    run, events := Extend(run, events, Enter(1), State(1, [true], map[0 := Showing(0), 1 := Entered]));
    run, events := Extend(run, events, TestHide(1), State(1, [true], map[0 := Showing(0), 1 := Hiding(0)]));
    run, events := Extend(run, events, SendHide(1), State(1, [true], map[0 := Showing(0), 1 := Hiding(1)]));
    var end := State(1, [false], map[0 := Showing(1), 1 := Hiding(1)]);
    run, events := Extend(run, events, SendShow(0), end);
    assert Relies(end.phases[1], 0) && !end.hidden[0];
  }

  lemma Begin() returns (run: seq<State>, events: seq<Event>)
    ensures run != [] && IsRun(run, events) && Last(run) == State(0, [false], map[])
  {
    run, events := [State(0, [false], map[])], [];
  }

  /** Every connection that is not gone can take its next step, in which it goes on towards its end. */
  lemma NobodyStuck(s: State, t: nat)
    requires t in s.phases && !s.phases[t].Gone?
    ensures match s.phases[t]
            case Entered => Enabled(s, TestHide(t))
            case Hiding(_) => Enabled(s, SendHide(t))
            case Relaying => Enabled(s, Leave(t)) && Next(s, Leave(t)).phases[t] == Left
            case Left => Enabled(s, TestShow(t))
            case Showing(next) =>
              && Enabled(s, SendShow(t))
              && Next(s, SendShow(t)).phases[t] == if next < |s.hidden| then Showing(next + 1) else Gone
  {
  }
}
