/**
 The table of relay agents (internal/pkg/processor/agents.go, handlers.go): an exchange sort in place
 that leaves unreachable agents where they are, a removal loop that swaps with the last entry and starts
 over, and the choice of the first entry as the route.
 */
module Agents {
  import opened Wrappers

  const UNREACHABLE := -1

  // A ping time in microseconds, or -1.
  type Metric = m: int | m >= -1

  datatype Agent = Agent(metric: Metric, address: string)

  predicate Reachable(a: Agent) {
    a.metric != UNREACHABLE
  }

  // ---------------------------------------------------------------- sorting

  predicate Ascending(s: seq<Agent>) {
    forall i, j :: 0 <= i < j < |s| && Reachable(s[i]) && Reachable(s[j]) ==> s[i].metric <= s[j].metric
  }

  // Unreachable agents keep their places.
  predicate Pinned(s: seq<Agent>, t: seq<Agent>) {
    && |s| == |t|
    && forall i :: 0 <= i < |s| ==> (Reachable(s[i]) <==> Reachable(t[i])) && (!Reachable(s[i]) ==> t[i] == s[i])
  }

  /** `t` is `s` with its reachable agents in ascending order over the places they had among themselves. */
  predicate Sorted(s: seq<Agent>, t: seq<Agent>) {
    multiset(s) == multiset(t) && Pinned(s, t) && Ascending(t)
  }

  function Swap(s: seq<Agent>, i: nat, j: nat): (t: seq<Agent>)
    requires i < |s| && j < |s|
    ensures |t| == |s| && multiset(t) == multiset(s)
  {
    s[i := s[j]][j := s[i]]
  }

  // At two reachable agents the metrics are in order.
  predicate InOrder(a: Agent, b: Agent) {
    Reachable(a) && Reachable(b) ==> a.metric <= b.metric
  }

  // The first `i` places are final.
  predicate Final(s: seq<Agent>, i: nat) {
    forall k, l :: 0 <= k < i && k < l < |s| ==> InOrder(s[k], s[l])
  }

  // Place `i` holds the least of the places from `i` to `j`.
  predicate Least(s: seq<Agent>, i: nat, j: nat) {
    i < |s| && forall l :: i < l < j && l < |s| ==> InOrder(s[i], s[l])
  }

  lemma SwapStep(before: seq<Agent>, s: seq<Agent>, i: nat, j: nat)
    requires i <= j < |s| && Pinned(before, s) && Final(s, i) && Least(s, i, j)
    requires s[i].metric > s[j].metric && Reachable(s[j])
    ensures var t := Swap(s, i, j); Pinned(before, t) && Final(t, i) && Least(t, i, j + 1)
  {
    var t := Swap(s, i, j);
    assert t[i] == s[j] && t[j] == s[i] && forall k :: 0 <= k < |s| && k != i && k != j ==> t[k] == s[k];
    forall k, l | 0 <= k < i && k < l < |t| ensures InOrder(t[k], t[l]) {
      assert InOrder(s[k], s[if l == i then j else if l == j then i else l]);
    }
    forall l | i < l < j + 1 ensures InOrder(t[i], t[l]) {
      if l < j { assert InOrder(s[i], s[l]); }
    }
  }

  lemma KeepStep(s: seq<Agent>, i: nat, j: nat)
    requires i <= j < |s| && Least(s, i, j) && InOrder(s[i], s[j])
    ensures Least(s, i, j + 1)
  {
  }

  lemma PlaceFinal(s: seq<Agent>, i: nat)
    requires i < |s| && Final(s, i) && Least(s, i, |s|)
    ensures Final(s, i + 1)
  {
  }

  lemma AllFinal(s: seq<Agent>)
    requires Final(s, |s|)
    ensures Ascending(s)
  {
    forall i, j | 0 <= i < j < |s| ensures InOrder(s[i], s[j]) {
    }
  }

  lemma StartSorting(s: seq<Agent>)
    ensures Pinned(s, s) && Final(s, 0)
  {
  }

  lemma NothingBetween(s: seq<Agent>, i: nat)
    requires i < |s|
    ensures Least(s, i, i)
  {
  }

  // ---------------------------------------------------------------- removal

  /** The one case in which the loop leaves an entry with the address: the first and the last both have it. */
  predicate Stuck(s: seq<Agent>, address: string) {
    |s| >= 2 && s[0].address == address && s[|s| - 1].address == address
  }

  ghost predicate SameOthers(s: seq<Agent>, t: seq<Agent>, address: string) {
    forall x: Agent :: x.address != address ==> multiset(t)[x] == multiset(s)[x]
  }

  /** All other agents stay, and of those with the address only a stuck one does, in front. */
  ghost predicate Removed(s: seq<Agent>, address: string, t: seq<Agent>) {
    && SameOthers(s, t, address)
    && (forall k :: 1 <= k < |t| ==> t[k].address != address)
    && (if Stuck(s, address) then t != [] && t[0] == s[|s| - 1] else t != [] ==> t[0].address != address)
  }

  // The last entry takes the place of the removed one.
  function Cut(s: seq<Agent>, i: nat): (t: seq<Agent>)
    requires i < |s|
    ensures |t| == |s| - 1
  {
    s[i := s[|s| - 1]][..|s| - 1]
  }

  lemma CutKeepsOthers(s: seq<Agent>, i: nat, address: string)
    requires i < |s| && s[i].address == address
    ensures SameOthers(s, Cut(s, i), address)
  {
    var n := |s| - 1;
    var t := s[i := s[n]];
    assert t == Cut(s, i) + [s[n]];
    assert multiset(t) == multiset(s) - multiset{s[i]} + multiset{s[n]};
    assert multiset(Cut(s, i) + [s[n]]) == multiset(Cut(s, i)) + multiset{s[n]};
    forall x: Agent | x.address != address ensures multiset(Cut(s, i))[x] == multiset(s)[x] {
      assert multiset(t)[x] == multiset(Cut(s, i))[x] + multiset{s[n]}[x];
    }
  }

  // How far the loop is: nothing removed yet, or the entries from 1 on are checked once more.
  predicate Checked(start: seq<Agent>, s: seq<Agent>, cut: bool, i: nat, address: string) {
    && (forall k :: (if cut then 1 else 0) <= k < i && k < |s| ==> s[k].address != address)
    && (!cut ==> s == start)
    && (cut ==> if Stuck(start, address) then s != [] && s[0] == start[|start| - 1]
                else s != [] ==> s[0].address != address)
  }

  lemma CutStep(start: seq<Agent>, s: seq<Agent>, cut: bool, i: nat, address: string)
    requires i < |s| && Checked(start, s, cut, i, address) && s[i].address == address && (cut ==> i >= 1)
    ensures Checked(start, Cut(s, i), true, 1, address)
  {
  }

  lemma PassStep(start: seq<Agent>, s: seq<Agent>, cut: bool, i: nat, address: string)
    requires i < |s| && Checked(start, s, cut, i, address) && s[i].address != address
    ensures Checked(start, s, cut, i + 1, address)
  {
  }

  lemma AllChecked(start: seq<Agent>, s: seq<Agent>, cut: bool, i: nat, address: string)
    requires |s| <= i && Checked(start, s, cut, i, address) && SameOthers(start, s, address)
    ensures Removed(start, address, s)
  {
  }

  lemma StartChecking(s: seq<Agent>, address: string)
    ensures Checked(s, s, false, 0, address) && SameOthers(s, s, address)
  {
  }

  lemma SameOthersChain(s: seq<Agent>, t: seq<Agent>, u: seq<Agent>, address: string)
    requires SameOthers(s, t, address) && SameOthers(t, u, address)
    ensures SameOthers(s, u, address)
  {
  }

  class Table {
    var agents: seq<Agent>

    constructor ()
      ensures agents == []
    {
      agents := [];
    }

    method SortAgents()
      modifies this
      ensures Sorted(old(agents), agents)
    {
      hide Pinned, Final, Least, Swap;
      StartSorting(agents);
      var i := 0;
      while i < |agents|
        invariant 0 <= i <= |agents| == |old(agents)|
        invariant multiset(agents) == multiset(old(agents)) && Pinned(old(agents), agents) && Final(agents, i)
      {
        NothingBetween(agents, i);
        var j := i;
        while j < |agents|
          invariant i <= j <= |agents| == |old(agents)|
          invariant multiset(agents) == multiset(old(agents)) && Pinned(old(agents), agents) && Final(agents, i)
          invariant Least(agents, i, j)
        {
          if agents[i].metric > agents[j].metric && agents[j].metric != UNREACHABLE {
            SwapStep(old(agents), agents, i, j);
            agents := Swap(agents, i, j);
          } else {
            KeepStep(agents, i, j);
          }
          j := j + 1;
        }
        PlaceFinal(agents, i);
        i := i + 1;
      }
      AllFinal(agents);
    }

    /** The index starts over at every removal, but at 1, because the loop still increments it. */
    method Remove(address: string)
      modifies this
      ensures Removed(old(agents), address, agents)
    {
      hide Checked, SameOthers, Cut, Removed;
      StartChecking(agents, address);
      ghost var cut := false;
      var i := 0;
      while i < |agents|
        invariant SameOthers(old(agents), agents, address)
        invariant Checked(old(agents), agents, cut, i, address) && (cut ==> i >= 1)
        decreases |agents|, |agents| - i
      {
        if agents[i].address == address {
          CutKeepsOthers(agents, i, address);
          SameOthersChain(old(agents), agents, Cut(agents, i), address);
          CutStep(old(agents), agents, cut, i, address);
          agents := Cut(agents, i);
          i := 0;
          cut := true;
        } else {
          PassStep(old(agents), agents, cut, i, address);
        }
        i := i + 1;
      }
      AllChecked(old(agents), agents, cut, i, address);
    }

    /** Every agent is pinged in turn. */
    method UpdateMetrics() returns (ghost pings: seq<Metric>)
      modifies this
      ensures |pings| == |old(agents)| && agents == Measured(old(agents), pings)
    {
      pings := [];
      var i := 0;
      while i < |agents|
        invariant i == |pings| <= |agents| == |old(agents)|
        invariant forall k :: 0 <= k < i ==> agents[k] == Agent(pings[k], old(agents)[k].address)
        invariant forall k :: i <= k < |agents| ==> agents[k] == old(agents)[k]
      {
        var metric: Metric := *;
        agents := agents[i := Agent(metric, agents[i].address)];
        pings := pings + [metric];
        i := i + 1;
      }
    }

    /**
     Both handlers that ask the server for a connection add an agent's address under this test. In a table
     that was sorted it is that of a reachable agent none is faster than.
     */
    method ChooseRoute() returns (r: Option<string>)
      ensures r == Route(agents)
      ensures r.Some? && Ascending(agents) ==>
                exists b :: b in agents && Reachable(b) && b.address == r.value
                  && forall a :: a in agents && Reachable(a) ==> b.metric <= a.metric
      ensures r.None? ==> agents == [] || !Reachable(agents[0])
    {
      assert agents != [] ==> agents[0] in agents;
      if |agents| > 0 && agents[0].metric != UNREACHABLE {
        r := Some(agents[0].address);
      } else {
        r := None;
      }
    }

    /** One round of the background loop that refreshes the table. */
    method Refresh() returns (ghost pings: seq<Metric>)
      modifies this
      ensures |pings| == |old(agents)| && Step(old(agents), Event.Refresh(pings), agents)
    {
      pings := UpdateMetrics();
      SortAgents();
    }

    method ProcessServers(messages: seq<string>) returns (ghost metric: Metric)
      modifies this
      ensures Step(old(agents), EventOf(messages, metric), agents)
      ensures |messages| == 2 && messages[0] == "true" ==>
                multiset(agents) == multiset(old(agents)) + multiset{Agent(metric, messages[1])}
                && Ascending(agents) && Addresses(agents) == Addresses(old(agents)) + {messages[1]}
      ensures |messages| == 2 && messages[0] == "false" && Distinct(old(agents)) ==>
                Ascending(agents) && Distinct(agents) && Addresses(agents) == Addresses(old(agents)) - {messages[1]}
      ensures |messages| != 2 || (messages[0] != "true" && messages[0] != "false") ==>
                |agents| == |messages| && forall i :: 0 <= i < |agents| ==> agents[i] == Agent(-1, messages[i])
    {
      hide Sorted, Removed, Distinct, Ascending, Addresses;
      metric := UNREACHABLE;
      if |messages| == 2 {
        var fl := messages[0];
        if fl == "true" || fl == "false" {
          if fl == "true" {
            var ping: Metric := *;
            metric := ping;
            agents := agents + [Agent(ping, messages[1])];
            AddressAdded(old(agents), Agent(ping, messages[1]));
          } else {
            Remove(messages[1]);
            assert Removed(old(agents), messages[1], agents);
            AddressRemoved(old(agents), messages[1], agents);
          }
          ghost var unsorted := agents;
          SortAgents();
          SortedAddresses(unsorted, agents);
          SortedParts(unsorted, agents);
          return;
        }
      }
      agents := seq(|messages|, i requires 0 <= i < |messages| => Agent(UNREACHABLE, messages[i]));
    }
  }

  function Measured(s: seq<Agent>, pings: seq<Metric>): (t: seq<Agent>)
    requires |pings| == |s|
  {
    seq(|s|, i requires 0 <= i < |s| => Agent(pings[i], s[i].address))
  }

  // ---------------------------------------------------------------- runs

  datatype Event =
    | Announce(addresses: seq<string>)
    | Up(address: string, metric: Metric)
    | Down(address: string)
    | Refresh(pings: seq<Metric>)

  // A list of two whose first entry is "true" or "false" is a change of one agent, anything else a new list.
  function EventOf(messages: seq<string>, metric: Metric): (e: Event) {
    if |messages| == 2 && messages[0] == "true" then Up(messages[1], metric)
    else if |messages| == 2 && messages[0] == "false" then Down(messages[1])
    else Announce(messages)
  }

  ghost predicate Step(s: seq<Agent>, e: Event, t: seq<Agent>) {
    match e
    case Announce(list) => |t| == |list| && forall i :: 0 <= i < |t| ==> t[i] == Agent(UNREACHABLE, list[i])
    case Up(address, metric) => Sorted(s + [Agent(metric, address)], t)
    case Down(address) => exists u :: Removed(s, address, u) && Sorted(u, t)
    case Refresh(pings) => |pings| == |s| && Sorted(Measured(s, pings), t)
  }

  /** The address a request to connect carries, if it carries one. */
  function Route(s: seq<Agent>): (r: Option<string>) {
    if |s| > 0 && Reachable(s[0]) then Some(s[0].address) else None
  }

  function Addresses(s: seq<Agent>): (a: set<string>) {
    set x | x in s :: x.address
  }

  predicate Distinct(s: seq<Agent>) {
    forall i, j :: 0 <= i < j < |s| ==> s[i].address != s[j].address
  }

  /** The abstract table: the agents the server has announced and not taken back. */
  function Live(live: set<string>, e: Event): (r: set<string>) {
    match e
    case Announce(list) => set x | x in list
    case Up(address, _) => live + {address}
    case Down(address) => live - {address}
    case Refresh(_) => live
  }

  // The server does not announce an agent that is listed already.
  predicate IsNews(s: seq<Agent>, e: Event) {
    match e
    case Announce(list) => forall i, j :: 0 <= i < j < |list| ==> list[i] != list[j]
    case Up(address, _) => address !in Addresses(s)
    case _ => true
  }

  // Distinct addresses, said without an order.
  ghost predicate DistinctBag(m: multiset<Agent>) {
    && (forall x: Agent :: m[x] <= 1)
    && (forall x: Agent, y: Agent :: x in m && y in m && x.address == y.address ==> x == y)
  }

  lemma {:induction false} DistinctIsDistinctBag(s: seq<Agent>)
    ensures Distinct(s) ==> DistinctBag(multiset(s))
  {
    if s != [] && Distinct(s) {
      var n := |s| - 1;
      DistinctIsDistinctBag(s[..n]);
      assert s == s[..n] + [s[n]];
      forall x | x in multiset(s[..n]) ensures x.address != s[n].address { assert x in s[..n]; }
      hide Distinct;
      DistinctBagGrows(multiset(s[..n]), s[n]);
    }
  }

  lemma DistinctBagGrows(m: multiset<Agent>, a: Agent)
    requires DistinctBag(m) && forall x :: x in m ==> x.address != a.address
    ensures DistinctBag(m + multiset{a})
  {
  }

  lemma DistinctBagIsDistinct(s: seq<Agent>)
    requires DistinctBag(multiset(s))
    ensures Distinct(s)
  {
    forall i, j | 0 <= i < j < |s| ensures s[i].address != s[j].address {
      assert s == s[..j] + s[j..];
      assert s[i] in multiset(s[..j]) && s[j] in multiset(s[j..]);
      assert s[i] in multiset(s) && s[j] in multiset(s);
    }
  }

  lemma SameMembers(s: seq<Agent>, t: seq<Agent>)
    requires multiset(s) == multiset(t)
    ensures forall x :: x in s <==> x in t
  {
    assert forall x :: x in s <==> x in multiset(s);
    assert forall x :: x in t <==> x in multiset(t);
  }

  lemma SortedAddresses(s: seq<Agent>, t: seq<Agent>)
    requires Sorted(s, t)
    ensures Addresses(t) == Addresses(s) && (Distinct(s) ==> Distinct(t))
  {
    SameMembers(s, t);
    if Distinct(s) {
      hide Distinct, DistinctBag;
      DistinctIsDistinctBag(s);
      DistinctBagIsDistinct(t);
    }
  }

  lemma MembersOf(s: seq<Agent>, t: seq<Agent>, address: string)
    requires SameOthers(s, t, address)
    ensures forall x: Agent :: x.address != address ==> (x in t <==> x in s)
  {
    forall x: Agent | x.address != address ensures x in t <==> x in s {
      assert x in t <==> x in multiset(t);
      assert x in s <==> x in multiset(s);
    }
  }

  /** The address is gone after the loop except in the stuck case. */
  lemma RemovedExactly(s: seq<Agent>, address: string, t: seq<Agent>)
    requires Removed(s, address, t)
    ensures address in Addresses(t) <==> Stuck(s, address)
    ensures Addresses(t) - {address} == Addresses(s) - {address}
  {
    MembersOf(s, t, address);
    hide SameOthers;
    if Stuck(s, address) {
      assert t[0] in t;
    }
    forall a ensures a in Addresses(t) - {address} <==> a in Addresses(s) - {address} {
    }
  }

  lemma RemovedDistinct(s: seq<Agent>, address: string, t: seq<Agent>)
    requires Removed(s, address, t) && Distinct(s)
    ensures !Stuck(s, address) && Distinct(t)
  {
    DistinctIsDistinctBag(s);
    forall x: Agent ensures multiset(t)[x] <= 1 && (x in multiset(t) ==> x in multiset(s)) {
      if x in multiset(t) {
        assert x in t;
        assert multiset(t)[x] == multiset(s)[x];
      }
    }
    hide SameOthers;
    DistinctBagIsDistinct(t);
  }

  lemma AddressAdded(s: seq<Agent>, a: Agent)
    ensures Addresses(s + [a]) == Addresses(s) + {a.address}
    ensures multiset(s + [a]) == multiset(s) + multiset{a}
  {
    var t := s + [a];
    assert t[|s|] in t && forall x :: x in s ==> x in t;
  }

  lemma AddressRemoved(s: seq<Agent>, address: string, t: seq<Agent>)
    requires Removed(s, address, t)
    ensures Distinct(s) ==> Distinct(t) && Addresses(t) == Addresses(s) - {address}
  {
    hide Removed, Distinct;
    if Distinct(s) {
      RemovedDistinct(s, address, t);
      RemovedExactly(s, address, t);
    }
  }

  lemma SortedParts(s: seq<Agent>, t: seq<Agent>)
    requires Sorted(s, t)
    ensures multiset(t) == multiset(s) && Ascending(t)
  {
  }

  /** With news only, the table lists exactly the live agents, each once. */
  lemma StepTracksLive(s: seq<Agent>, e: Event, t: seq<Agent>)
    requires Distinct(s) && IsNews(s, e) && Step(s, e, t)
    ensures Distinct(t) && Addresses(t) == Live(Addresses(s), e)
  {
    hide Sorted, Removed;
    match e
    case Announce(list) =>
      forall a ensures a in Addresses(t) <==> a in list {
        if a in list { var i :| 0 <= i < |list| && list[i] == a; assert t[i] in t; }
      }
    case Up(address, metric) =>
      var u := s + [Agent(metric, address)];
      assert u[|s|] in u && forall x :: x in s ==> x in u;
      forall i | 0 <= i < |s| ensures s[i].address != address { assert s[i] in s; }
      SortedAddresses(u, t);
    case Down(address) =>
      var u :| Removed(s, address, u) && Sorted(u, t);
      RemovedDistinct(s, address, u);
      RemovedExactly(s, address, u);
      SortedAddresses(u, t);
    case Refresh(pings) =>
      var u := Measured(s, pings);
      forall a ensures a in Addresses(u) <==> a in Addresses(s) {
        if a in Addresses(s) { var i :| 0 <= i < |s| && s[i].address == a; assert u[i] in u; }
        if a in Addresses(u) { var i :| 0 <= i < |u| && u[i].address == a; assert s[i] in s; }
      }
      SortedAddresses(u, t);
  }

  ghost predicate IsRun(run: seq<seq<Agent>>, events: seq<Event>) {
    && |run| == |events| + 1 && run[0] == []
    && forall i :: 0 <= i < |events| ==> Step(run[i], events[i], run[i + 1])
  }

  function LiveAfter(events: seq<Event>): (live: set<string>) {
    if events == [] then {} else Live(LiveAfter(events[..|events| - 1]), events[|events| - 1])
  }

  /** Over any run of news the table is the abstract set of live agents, without duplicates. */
  lemma {:induction false} RunTracksLive(run: seq<seq<Agent>>, events: seq<Event>, n: nat)
    requires IsRun(run, events) && n < |run|
    requires forall i :: 0 <= i < |events| ==> IsNews(run[i], events[i])
    ensures Distinct(run[n]) && Addresses(run[n]) == LiveAfter(events[..n])
  {
    hide Step, Distinct, IsNews, Live;
    if n == 0 {
      EmptyTable(run[0]);
    } else {
      RunTracksLive(run, events, n - 1);
      assert Step(run[n - 1], events[n - 1], run[n - 1 + 1]);
      StepTracksLive(run[n - 1], events[n - 1], run[n]);
      assert events[..n][..n - 1] == events[..n - 1];
    }
  }

  lemma EmptyTable(s: seq<Agent>)
    requires s == []
    ensures Distinct(s) && Addresses(s) == {} && Ascending(s)
  {
  }

  lemma StepAscending(s: seq<Agent>, e: Event, t: seq<Agent>)
    requires Step(s, e, t)
    ensures Ascending(t)
  {
  }

  /** Whenever a request carries an address it is that of an agent with the least metric of all reachable ones. */
  lemma RouteIsLeast(run: seq<seq<Agent>>, events: seq<Event>, n: nat, a: Agent)
    requires IsRun(run, events) && n < |run| && Route(run[n]).Some? && a in run[n] && Reachable(a)
    ensures exists b :: b in run[n] && Reachable(b) && b.address == Route(run[n]).value && b.metric <= a.metric
  {
    hide Step, Ascending;
    if n > 0 {
      assert Step(run[n - 1], events[n - 1], run[n - 1 + 1]);
      StepAscending(run[n - 1], events[n - 1], run[n]);
    }
    HeadIsLeast(run[n], a);
  }

  lemma HeadIsLeast(s: seq<Agent>, a: Agent)
    requires Ascending(s) && s != [] && Reachable(s[0]) && a in s && Reachable(a)
    ensures s[0] in s && s[0].metric <= a.metric
  {
  }

  /**
   After a refresh a request carries an address exactly when the agent that was first in the table
   answered its ping, however many others did; the address is then that of a fastest one.
   */
  lemma RouteAfterRefresh(s: seq<Agent>, pings: seq<Metric>, t: seq<Agent>)
    requires |pings| == |s| && Step(s, Event.Refresh(pings), t)
    ensures Route(t).Some? <==> s != [] && pings[0] != UNREACHABLE
    ensures Route(t).Some? ==>
              exists i :: 0 <= i < |s| && s[i].address == Route(t).value && pings[i] != UNREACHABLE
                && forall k :: 0 <= k < |s| && pings[k] != UNREACHABLE ==> pings[i] <= pings[k]
  {
    var u := Measured(s, pings);
    if s != [] {
      assert Reachable(u[0]) <==> Reachable(t[0]);
      if Route(t).Some? {
        assert t[0] in multiset(u) by { assert t[0] in multiset(t); }
        var i :| 0 <= i < |u| && u[i] == t[0];
        forall k | 0 <= k < |s| && pings[k] != UNREACHABLE ensures pings[i] <= pings[k] {
          assert u[k] in multiset(t) by { assert u[k] in multiset(u); }
          HeadIsLeast(t, u[k]);
        }
      }
    }
  }
}
