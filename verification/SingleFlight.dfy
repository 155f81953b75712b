/** Collapsing identical searches in flight into one, as interleaved steps of the callers. */
module SingleFlight {
  import opened Prelude

  type Key = nat

  /** What a search came to: its response, or its error. */
  datatype Result = Found(response: string) | Failed(message: string)

  /** `leader` opened the flight; `result` is what was published, once it is done. */
  datatype Flight = Flight(key: Key, leader: nat, result: Option<Result>)

  /** Where a caller is. A leader finishes in two steps: it takes a flight off the table, then publishes to it. */
  datatype Caller =
    | Leading(flight: nat)
    | Publishing(flight: nat, taken: Option<nat>, own: Result)
    | Led(flight: nat, own: Result)
    | Waiting(flight: nat, live: bool)
    | Answered(flight: nat, answer: Result)
    | GaveUp(flight: nat)

  datatype State = State(table: map<Key, nat>, flights: seq<Flight>, callers: seq<Caller>)

  const Initial: State := State(map[], [], [])

  datatype Action =
    | Arrive(key: Key)
    | TakeOff(caller: nat, own: Result)
    | Publish(caller: nat)
    | Cancel(caller: nat)
    | Return(caller: nat)

  // ---------------------------------------------------------------- the steps

  /** Join the flight registered under the key, or register one and lead it. */
  function AfterArrive(s: State, key: Key): State
  {
    if key in s.table then s.(callers := s.callers + [Waiting(s.table[key], true)])
    else State(s.table[key := |s.flights|], s.flights + [Flight(key, |s.callers|, None)], s.callers + [Leading(|s.flights|)])
  }

  /** The leader has its result: it takes whatever flight its key has off the table. */
  function AfterTakeOff(s: State, c: nat, own: Result): State
    requires c < |s.callers| && s.callers[c].Leading? && s.callers[c].flight < |s.flights|
  {
    var f := s.callers[c].flight;
    var key := s.flights[f].key;
    State(s.table - {key}, s.flights,
          s.callers[c := Publishing(f, if key in s.table then Some(s.table[key]) else None, own)])
  }

  function AfterPublish(s: State, c: nat): State
    requires c < |s.callers| && s.callers[c].Publishing?
    requires s.callers[c].taken.Some? ==> s.callers[c].taken.value < |s.flights|
  {
    var p := s.callers[c];
    var t := s.(callers := s.callers[c := Led(p.flight, p.own)]);
    if p.taken.None? then t
    else t.(flights := s.flights[p.taken.value := s.flights[p.taken.value].(result := Some(p.own))])
  }

  /** A waiter returns what its flight published, or gives up once its own context has ended. */
  ghost predicate Enabled(s: State, a: Action)
  {
    match a
    case Arrive(_) => true
    case TakeOff(c, _) => c < |s.callers| && s.callers[c].Leading? && s.callers[c].flight < |s.flights|
    case Publish(c) =>
      && c < |s.callers| && s.callers[c].Publishing?
      && (s.callers[c].taken.Some? ==> s.callers[c].taken.value < |s.flights|)
    case Cancel(c) => c < |s.callers| && s.callers[c].Waiting?
    case Return(c) =>
      && c < |s.callers| && s.callers[c].Waiting? && s.callers[c].flight < |s.flights|
      && (s.flights[s.callers[c].flight].result.Some? || !s.callers[c].live)
  }

  /** With both a published result and an ended context, either may be taken. */
  ghost predicate Step(s: State, a: Action, t: State)
  {
    && Enabled(s, a)
    && match a
       case Arrive(key) => t == AfterArrive(s, key)
       case TakeOff(c, own) => t == AfterTakeOff(s, c, own)
       case Publish(c) => t == AfterPublish(s, c)
       case Cancel(c) => t == s.(callers := s.callers[c := s.callers[c].(live := false)])
       case Return(c) =>
         var f := s.callers[c].flight;
         || (s.flights[f].result.Some? && t == s.(callers := s.callers[c := Answered(f, s.flights[f].result.value)]))
         || (!s.callers[c].live && t == s.(callers := s.callers[c := GaveUp(f)]))
  }

  // ---------------------------------------------------------------- the invariant

  predicate Leads(c: Caller)
  {
    c.Leading? || c.Publishing? || c.Led?
  }

  /** A leader still searching has its flight on the table; one publishing took its own flight, and nobody has published
      to it; one that is done has published its own result. */
  ghost predicate CallerOk(s: State, i: nat)
    requires i < |s.callers|
  {
    var c := s.callers[i];
    && c.flight < |s.flights| && (Leads(c) ==> s.flights[c.flight].leader == i)
    && match c
       case Leading(f) => s.flights[f].key in s.table && s.table[s.flights[f].key] == f && s.flights[f].result.None?
       case Publishing(f, taken, _) => taken == Some(f) && s.flights[f].result.None?
       case Led(f, own) => s.flights[f].result == Some(own)
       case Answered(f, answer) => s.flights[f].result == Some(answer)
       case _ => true
  }

  ghost predicate FlightOk(s: State, f: nat)
    requires f < |s.flights|
  {
    var i := s.flights[f].leader;
    i < |s.callers| && Leads(s.callers[i]) && s.callers[i].flight == f
  }

  /** A registered flight carries its key, and its leader is still searching. */
  ghost predicate EntryOk(s: State, k: Key)
    requires k in s.table
  {
    && s.table[k] < |s.flights| && s.flights[s.table[k]].key == k
    && s.flights[s.table[k]].leader < |s.callers| && s.callers[s.flights[s.table[k]].leader].Leading?
  }

  ghost predicate Inv(s: State)
  {
    && (forall i :: 0 <= i < |s.callers| ==> CallerOk(s, i))
    && (forall f :: 0 <= f < |s.flights| ==> FlightOk(s, f))
    && (forall k :: k in s.table ==> EntryOk(s, k))
  }

  lemma ArriveInv(s: State, key: Key)
    requires Inv(s)
    ensures Inv(AfterArrive(s, key))
  {
    var t := AfterArrive(s, key);
    forall i | 0 <= i < |t.callers|
      ensures CallerOk(t, i)
    {
      if i < |s.callers| { assert CallerOk(s, i); }
      if key in s.table { assert EntryOk(s, key); }
    }
    forall f | 0 <= f < |t.flights|
      ensures FlightOk(t, f)
    {
      if f < |s.flights| { assert FlightOk(s, f); }
    }
    forall k | k in t.table
      ensures EntryOk(t, k)
    {
      if k in s.table { assert EntryOk(s, k); }
    }
  }

  lemma TakeOffInv(s: State, c: nat, own: Result)
    requires Inv(s) && Enabled(s, TakeOff(c, own))
    ensures Inv(AfterTakeOff(s, c, own))
  {
    var t := AfterTakeOff(s, c, own);
    assert CallerOk(s, c);
    forall i | 0 <= i < |t.callers|
      ensures CallerOk(t, i)
    {
      assert CallerOk(s, i);
    }
    forall f | 0 <= f < |t.flights|
      ensures FlightOk(t, f)
    {
      assert FlightOk(s, f);
    }
    forall k | k in t.table
      ensures EntryOk(t, k)
    {
      assert EntryOk(s, k) && FlightOk(s, s.table[k]);
    }
  }

  lemma PublishInv(s: State, c: nat)
    requires Inv(s) && Enabled(s, Publish(c))
    ensures Inv(AfterPublish(s, c))
  {
    var t := AfterPublish(s, c);
    assert CallerOk(s, c);
    forall i | 0 <= i < |t.callers|
      ensures CallerOk(t, i)
    {
      assert CallerOk(s, i);
    }
    forall f | 0 <= f < |t.flights|
      ensures FlightOk(t, f)
    {
      assert FlightOk(s, f);
    }
    forall k | k in t.table
      ensures EntryOk(t, k)
    {
      assert EntryOk(s, k);
    }
  }

  /** A waiter moves on. */
  lemma WaiterInv(s: State, c: nat, after: Caller)
    requires Inv(s) && c < |s.callers| && s.callers[c].Waiting? && after.flight == s.callers[c].flight && !Leads(after)
    requires after.Answered? ==> s.callers[c].flight < |s.flights| && s.flights[after.flight].result == Some(after.answer)
    ensures Inv(s.(callers := s.callers[c := after]))
  {
    var t := s.(callers := s.callers[c := after]);
    forall i | 0 <= i < |t.callers|
      ensures CallerOk(t, i)
    {
      assert CallerOk(s, i);
    }
    forall f | 0 <= f < |t.flights|
      ensures FlightOk(t, f)
    {
      assert FlightOk(s, f);
    }
    forall k | k in t.table
      ensures EntryOk(t, k)
    {
      assert EntryOk(s, k);
    }
  }

  lemma StepInv(s: State, a: Action, t: State)
    requires Inv(s) && Step(s, a, t)
    ensures Inv(t)
  {
    match a
    case Arrive(key) => ArriveInv(s, key);
    case TakeOff(c, own) => TakeOffInv(s, c, own);
    case Publish(c) => PublishInv(s, c);
    case Cancel(c) => WaiterInv(s, c, t.callers[c]);
    case Return(c) => WaiterInv(s, c, t.callers[c]);
  }

  // ---------------------------------------------------------------- whole runs

  ghost predicate StepAt(run: seq<State>, actions: seq<Action>, i: nat)
  {
    i < |actions| && i + 1 < |run| ==> Step(run[i], actions[i], run[i + 1])
  }

  ghost predicate Run(run: seq<State>, actions: seq<Action>)
  {
    |run| == |actions| + 1 && run[0] == Initial && forall i: nat :: StepAt(run, actions, i)
  }

  lemma {:induction false} RunInv(run: seq<State>, actions: seq<Action>, n: nat)
    requires Run(run, actions) && n < |run|
    ensures Inv(run[n])
  {
    if n > 0 {
      RunInv(run, actions, n - 1);
      assert StepAt(run, actions, n - 1);
      StepInv(run[n - 1], actions[n - 1], run[n]);
    }
  }

  /** A flight's key and leader never change, and a result, once published, stays. */
  ghost predicate Kept(s: State, t: State)
  {
    && |s.flights| <= |t.flights| && |s.callers| <= |t.callers|
    && (forall f :: 0 <= f < |s.flights| ==>
          t.flights[f].key == s.flights[f].key && t.flights[f].leader == s.flights[f].leader
          && (s.flights[f].result.Some? ==> t.flights[f].result == s.flights[f].result))
    && forall c :: 0 <= c < |s.callers| ==> t.callers[c].flight == s.callers[c].flight
  }

  lemma StepKept(s: State, a: Action, t: State)
    requires Inv(s) && Step(s, a, t)
    ensures Kept(s, t)
  {
    if a.Publish? { assert CallerOk(s, a.caller); }
  }

  lemma {:induction false} RunKept(run: seq<State>, actions: seq<Action>, n: nat, m: nat)
    requires Run(run, actions) && n <= m < |run|
    ensures Kept(run[n], run[m])
  {
    if n < m {
      RunKept(run, actions, n, m - 1);
      RunInv(run, actions, m - 1);
      assert StepAt(run, actions, m - 1);
      StepKept(run[m - 1], actions[m - 1], run[m]);
    }
  }

  /** In every interleaving, the leaders still searching are exactly those of the registered flights, so no key is being
      searched twice; and a result is published to a flight at most once. */
  lemma OneSearchPerKey(run: seq<State>, actions: seq<Action>, n: nat, c: nat, d: nat)
    requires Run(run, actions) && n < |run| && c < |run[n].callers| && d < |run[n].callers|
    requires run[n].callers[c].Leading? && run[n].callers[d].Leading?
    ensures run[n].callers[c].flight < |run[n].flights| && run[n].callers[d].flight < |run[n].flights|
    ensures run[n].flights[run[n].callers[c].flight].key == run[n].flights[run[n].callers[d].flight].key ==> c == d
  {
    RunInv(run, actions, n);
    assert CallerOk(run[n], c) && CallerOk(run[n], d);
  }

  /** A leader always takes its own flight off the table, and publishes to a flight nobody has published to. */
  lemma PublishesOnce(run: seq<State>, actions: seq<Action>, n: nat, c: nat)
    requires Run(run, actions) && n < |run| && c < |run[n].callers| && run[n].callers[c].Publishing?
    ensures var p := run[n].callers[c];
      p.taken == Some(p.flight) && p.flight < |run[n].flights| && run[n].flights[p.flight].result.None?
  {
    RunInv(run, actions, n);
    assert CallerOk(run[n], c);
  }

  /** The leader of the flight a caller joined. */
  function LeaderOf(s: State, c: nat): nat
    requires c < |s.callers| && s.callers[c].flight < |s.flights|
  {
    s.flights[s.callers[c].flight].leader
  }

  /** A caller answered as a waiter was answered by the flight it joined: its leader had published, and the answer is the
      leader's own result, whatever other flights of the key came and went since. */
  lemma WaitersGetTheirFlight(run: seq<State>, actions: seq<Action>, n: nat, m: nat, c: nat)
    requires Run(run, actions) && n <= m < |run| && c < |run[n].callers| && c < |run[m].callers|
    requires run[n].callers[c].Waiting? && run[m].callers[c].Answered?
    ensures var f := run[n].callers[c].flight;
      && f < |run[n].flights| && f < |run[m].flights| && run[m].flights[f].leader < |run[m].callers|
      && run[m].flights[f].key == run[n].flights[f].key && run[m].callers[c].flight == f
      && run[m].callers[run[m].flights[f].leader] == Led(f, run[m].callers[c].answer)
  {
    RunInv(run, actions, n);
    RunInv(run, actions, m);
    RunKept(run, actions, n, m);
    assert CallerOk(run[n], c) && CallerOk(run[m], c);
    assert FlightOk(run[m], run[m].callers[c].flight);
    assert CallerOk(run[m], LeaderOf(run[m], c));
  }

  /** The caller's context has ended, whether it has noticed or not. */
  predicate Ended(c: Caller)
  {
    c.GaveUp? || (c.Waiting? && !c.live)
  }

  /** In every interleaving, a caller that gave up was cancelled itself, while it was waiting. */
  lemma {:induction false} GivesUpOnlyWhenCancelled(run: seq<State>, actions: seq<Action>, n: nat, c: nat) returns (k: nat)
    requires Run(run, actions) && n < |run| && c < |run[n].callers| && Ended(run[n].callers[c])
    ensures k < n && actions[k] == Cancel(c) && c < |run[k].callers| && run[k].callers[c].Waiting?
  {
    assert n > 0;
    assert StepAt(run, actions, n - 1);
    if c < |run[n - 1].callers| && Ended(run[n - 1].callers[c]) {
      k := GivesUpOnlyWhenCancelled(run, actions, n - 1, c);
    } else {
      k := n - 1;
    }
  }

  /** Once every leader has finished the table is empty, and nobody is left waiting for a flight that is not done. */
  lemma AllFinishedMeansEmpty(run: seq<State>, actions: seq<Action>, n: nat)
    requires Run(run, actions) && n < |run|
    requires forall c :: 0 <= c < |run[n].callers| && Leads(run[n].callers[c]) ==> run[n].callers[c].Led?
    ensures run[n].table == map[]
    ensures forall c :: 0 <= c < |run[n].callers| && run[n].callers[c].Waiting? ==> Enabled(run[n], Return(c))
  {
    var s := run[n];
    RunInv(run, actions, n);
    assert forall k :: k in s.table ==> EntryOk(s, k);
    assert s.table.Keys == {};
    forall c | 0 <= c < |s.callers| && s.callers[c].Waiting?
      ensures Enabled(s, Return(c))
    {
      assert CallerOk(s, c);
      assert FlightOk(s, s.callers[c].flight);
      assert CallerOk(s, LeaderOf(s, c));
    }
  }
}
