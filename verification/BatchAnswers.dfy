/** What callers of the batcher are told, traced back through the run: their enqueueing, the scan, the call's result. */
module BatchAnswers {
  import opened Prelude
  import opened SearchBatcher

  // ---------------------------------------------------------------- steps of others

  /** A step of this group's own goroutine. */
  ghost predicate StepOf(a: Action, g: nat)
  {
    || (a.Drain? && a.group == g) || (a.Scan? && a.group == g) || (a.Call? && a.group == g) || (a.Deliver? && a.group == g)
  }

  /** Of a request only its caller can have gone. */
  ghost predicate SameButLive(q: Request, q': Request)
  {
    q' == q.(live := q'.live) && (q'.live ==> q.live)
  }

  /** A drained group and its requests are as they were, but for callers that have gone. */
  ghost predicate Untouched(s: State, t: State, g: nat)
  {
    && g < |s.groups| && g < |t.groups| && t.groups[g] == s.groups[g] && |s.requests| <= |t.requests|
    && forall r :: 0 <= r < |s.requests| && s.requests[r].group == g ==> SameButLive(s.requests[r], t.requests[r])
  }

  lemma EnqueueUntouched(maxBatch: nat, s: State, key: Key, query: Query, g: nat)
    requires Inv(maxBatch, s) && Enabled(s, Enqueue(key, query)) && g < |s.groups| && !s.groups[g].phase.Collecting?
    ensures Untouched(s, AfterEnqueue(maxBatch, s, key, query), g)
  {
  }

  lemma DeliverUntouched(maxBatch: nat, s: State, h: nat, g: nat)
    requires Inv(maxBatch, s) && CanDeliver(s, h) && g < |s.groups| && g != h
    ensures Untouched(s, AfterDeliver(s, h), g)
  {
    assert MembersOk(s, h);
  }

  lemma OthersStep(maxBatch: nat, s: State, a: Action, g: nat)
    requires Inv(maxBatch, s) && Enabled(s, a) && g < |s.groups| && !s.groups[g].phase.Collecting? && !StepOf(a, g)
    ensures Untouched(s, After(maxBatch, s, a), g)
  {
    match a
    case Enqueue(key, query) => EnqueueUntouched(maxBatch, s, key, query, g);
    case Cancel(r) =>
    case Drain(h) =>
    case Scan(h) => assert MembersOk(s, h);
    case Call(h, result) =>
    case Deliver(h) => DeliverUntouched(maxBatch, s, h, g);
  }

  // ---------------------------------------------------------------- where requests come from

  /** A request is what some caller enqueued, for the worker its group is bound for. */
  lemma {:induction false} RequestsWereEnqueued(maxBatch: nat, run: seq<State>, actions: seq<Action>, j: nat, r: nat) returns (a: nat)
    requires Run(maxBatch, run, actions) && j < |run| && r < |run[j].requests|
    ensures a < j && |run[a].requests| == r && run[j].requests[r].group < |run[j].groups|
    ensures actions[a] == Enqueue(run[j].groups[run[j].requests[r].group].key, run[j].requests[r].query)
  {
    RunInv(maxBatch, run, actions, j - 1);
    assert StepAt(maxBatch, run, actions, j - 1);
    RunInv(maxBatch, run, actions, j);
    assert Placed(run[j], r);
    if r < |run[j - 1].requests| {
      a := RequestsWereEnqueued(maxBatch, run, actions, j - 1, r);
      StepKept(maxBatch, run[j - 1], actions[j - 1]);
    } else {
      a := j - 1;
    }
  }

  /** None of the first `j` actions cancels the request. */
  ghost predicate NotCancelled(actions: seq<Action>, j: nat, r: nat)
  {
    forall c :: 0 <= c < j && c < |actions| ==> actions[c] != Cancel(r)
  }

  /** A caller's context is live exactly until it is cancelled. */
  lemma {:induction false} LiveUntilCancelled(maxBatch: nat, run: seq<State>, actions: seq<Action>, j: nat, r: nat)
    requires Run(maxBatch, run, actions) && j < |run| && r < |run[j].requests|
    ensures run[j].requests[r].live <==> NotCancelled(actions, j, r)
  {
    RunInv(maxBatch, run, actions, j - 1);
    assert StepAt(maxBatch, run, actions, j - 1);
    assert NotCancelled(actions, j, r) <==> NotCancelled(actions, j - 1, r) && actions[j - 1] != Cancel(r);
    if r < |run[j - 1].requests| {
      LiveUntilCancelled(maxBatch, run, actions, j - 1, r);
      LiveAcross(maxBatch, run[j - 1], actions[j - 1], r);
    } else {
      NotYetCancelled(maxBatch, run, actions, j - 1, r);
      NewIsLive(maxBatch, run[j - 1], actions[j - 1], r);
    }
  }

  lemma LiveAcross(maxBatch: nat, s: State, a: Action, r: nat)
    requires Inv(maxBatch, s) && Enabled(s, a) && r < |s.requests|
    ensures var t := After(maxBatch, s, a); r < |t.requests| && (t.requests[r].live <==> s.requests[r].live && a != Cancel(r))
  {
    StepKept(maxBatch, s, a);
  }

  lemma NewIsLive(maxBatch: nat, s: State, a: Action, r: nat)
    requires Enabled(s, a) && |s.requests| <= r < |After(maxBatch, s, a).requests|
    ensures a.Enqueue? && After(maxBatch, s, a).requests[r].live
  {
  }

  lemma {:induction false} NotYetCancelled(maxBatch: nat, run: seq<State>, actions: seq<Action>, j: nat, r: nat)
    requires Run(maxBatch, run, actions) && j < |run| && |run[j].requests| <= r
    ensures NotCancelled(actions, j, r)
  {
    if j > 0 {
      RunInv(maxBatch, run, actions, j - 1);
      assert StepAt(maxBatch, run, actions, j - 1);
      StepKept(maxBatch, run[j - 1], actions[j - 1]);
      NotYetCancelled(maxBatch, run, actions, j - 1, r);
    }
  }

  /** A caller joins the group pending for its worker exactly if there is one with room, and is in the one pending then. */
  lemma JoinsIffRoom(maxBatch: nat, s: State, key: Key, query: Query)
    requires Inv(maxBatch, s) && Enabled(s, Enqueue(key, query))
    ensures var t := AfterEnqueue(maxBatch, s, key, query); var q := t.requests[|s.requests|];
      && key in t.pending && t.pending[key] == q.group && |t.requests| == |s.requests| + 1
      && (|t.groups| == |s.groups| <==> key in s.pending && |s.groups[s.pending[key]].members| < maxBatch)
      && (|t.groups| == |s.groups| ==> t.pending == s.pending)
      && (|t.groups| != |s.groups| ==> |t.groups| == |s.groups| + 1 && q.group == |s.groups| && t.pending - {key} == s.pending - {key})
  {
  }

  /** A timer takes only its own worker's entry off the pending table. */
  lemma DrainTakesOwnKey(maxBatch: nat, s: State, g: nat)
    requires Inv(maxBatch, s) && Enabled(s, Drain(g))
    ensures AfterDrain(s, g).pending == s.pending - {s.groups[g].key}
  {
  }

  // ---------------------------------------------------------------- who is put into the call

  ghost predicate ScannedAt(run: seq<State>, actions: seq<Action>, k: nat, g: nat, i: nat)
  {
    k < |actions| && k < |run| && actions[k] == Scan(g) && Enabled(run[k], Scan(g)) && run[k].groups[g].phase.next == i
  }

  /** Each position the scan has passed was put into the call if and only if its caller was live when the scan came to it. */
  lemma {:induction false} SentIffLiveAtScan(maxBatch: nat, run: seq<State>, actions: seq<Action>, j: nat, g: nat, i: nat) returns (k: nat)
    requires Run(maxBatch, run, actions) && j < |run| && g < |run[j].groups| && run[j].groups[g].phase.Scanning?
    requires i < run[j].groups[g].phase.next
    ensures k < j && ScannedAt(run, actions, k, g, i) && run[k].groups[g].members == run[j].groups[g].members
    ensures i in run[j].groups[g].phase.sent <==> run[k].requests[run[k].groups[g].members[i]].live
  {
    var s := run[j - 1];
    RunInv(maxBatch, run, actions, j - 1);
    assert StepAt(maxBatch, run, actions, j - 1);
    WasScanning(maxBatch, s, actions[j - 1], g);
    if actions[j - 1] == Scan(g) && s.groups[g].phase.next == i {
      k := j - 1;
      assert PhaseOk(s, g);
    } else {
      k := SentIffLiveAtScan(maxBatch, run, actions, j - 1, g, i);
    }
  }

  /** How a group that is scanning, past the first position, came to be so. */
  lemma WasScanning(maxBatch: nat, s: State, a: Action, g: nat)
    requires Inv(maxBatch, s) && Enabled(s, a)
    requires var t := After(maxBatch, s, a); g < |t.groups| && t.groups[g].phase.Scanning? && t.groups[g].phase.next > 0
    ensures var t := After(maxBatch, s, a);
      && g < |s.groups| && s.groups[g].phase.Scanning? && s.groups[g].members == t.groups[g].members
      && if a == Scan(g) then
           var p, q := s.groups[g].phase, t.groups[g].phase;
           q.next == p.next + 1 && q.sent == if s.requests[s.groups[g].members[p.next]].live then p.sent + [p.next] else p.sent
         else t.groups[g] == s.groups[g]
  {
    if !StepOf(a, g) && g < |s.groups| && !s.groups[g].phase.Collecting? { OthersStep(maxBatch, s, a, g); }
  }

  // ---------------------------------------------------------------- what they are told

  /** With nobody left to search for, no call is made, and the group has finished. */
  lemma NobodyLeft(maxBatch: nat, s: State, g: nat, result: CallResult)
    requires Inv(maxBatch, s) && Enabled(s, Call(g, result)) && s.groups[g].phase.sent == []
    ensures AfterCall(s, g, result) == SetPhase(s, g, Finished)
  {
  }

  const MISMATCH: string := "batch search response size mismatch"

  /** What the request in place `k` of a call is to be told, by the call's result. */
  function Verdict(result: CallResult, n: nat, k: nat): Answer
    requires k < n
  {
    match result
    case CallFailed(message) => BatchError(message)
    case Responses(list) => if |list| == n then Reply(list[k]) else BatchError(MISMATCH)
  }

  /** Told the verdict; of an error, only if it was still there to be told. */
  ghost predicate Told(q: Request, v: Answer)
  {
    q.answers == [v] || (v.BatchError? && q.answers == [] && !q.live)
  }

  /** How far the answers to the requests of the call made in `s0` have got in `s`. */
  ghost predicate Answering(s0: State, g: nat, result: CallResult, s: State)
  {
    && g < |s0.groups| && g < |s.groups| && s0.groups[g].phase.Scanning? && s.groups[g].members == s0.groups[g].members
    && (match s.groups[g].phase
        case Replying(list, _, sent) => result == Responses(list) && sent == s0.groups[g].phase.sent
        case Failing(message, _, sent) =>
          && sent == s0.groups[g].phase.sent
          && forall k :: 0 <= k < |sent| ==> Verdict(result, |sent|, k) == BatchError(message)
        case Finished => true
        case _ => false)
    && forall k :: 0 <= k < |s0.groups[g].phase.sent| ==> AnsweredInTurn(s0, g, result, s, k)
  }

  ghost predicate AnsweredInTurn(s0: State, g: nat, result: CallResult, s: State, k: nat)
    requires g < |s0.groups| && g < |s.groups| && s0.groups[g].phase.Scanning? && k < |s0.groups[g].phase.sent|
  {
    var sent := s0.groups[g].phase.sent;
    && sent[k] < |s0.groups[g].members| && s0.groups[g].members[sent[k]] < |s.requests|
    && var q := s.requests[s0.groups[g].members[sent[k]]];
       match s.groups[g].phase
       case Replying(_, next, _) => if k < next then Told(q, Verdict(result, |sent|, k)) else q.answers == []
       case Failing(_, next, _) => if sent[k] < next then Told(q, Verdict(result, |sent|, k)) else q.answers == []
       case Finished => Told(q, Verdict(result, |sent|, k))
       case _ => false
  }

  lemma CallAnswering(maxBatch: nat, s: State, g: nat, result: CallResult)
    requires Inv(maxBatch, s) && Enabled(s, Call(g, result))
    ensures Answering(s, g, result, AfterCall(s, g, result))
  {
    assert PhaseOk(s, g) && MembersOk(s, g);
  }

  lemma UntouchedAnswering(s0: State, g: nat, result: CallResult, s: State, t: State)
    requires Answering(s0, g, result, s) && Untouched(s, t, g) && MembersOk(s, g)
    ensures Answering(s0, g, result, t)
  {
    forall k | 0 <= k < |s0.groups[g].phase.sent|
      ensures AnsweredInTurn(s0, g, result, t, k)
    {
      assert AnsweredInTurn(s0, g, result, s, k);
    }
  }

  lemma FailAnswering(maxBatch: nat, s0: State, g: nat, result: CallResult, s: State)
    requires Inv(maxBatch, s) && Answering(s0, g, result, s) && CanDeliver(s, g) && s.groups[g].phase.Failing?
    ensures Answering(s0, g, result, AfterFail(s, g))
  {
    assert PhaseOk(s, g) && MembersOk(s, g);
    forall k | 0 <= k < |s0.groups[g].phase.sent|
      ensures AnsweredInTurn(s0, g, result, AfterFail(s, g), k)
    {
      assert AnsweredInTurn(s0, g, result, s, k);
    }
  }

  lemma ReplyAnswering(maxBatch: nat, s0: State, g: nat, result: CallResult, s: State)
    requires Inv(maxBatch, s) && Answering(s0, g, result, s) && CanDeliver(s, g) && s.groups[g].phase.Replying?
    ensures Answering(s0, g, result, AfterReply(s, g))
  {
    assert PhaseOk(s, g) && MembersOk(s, g);
    forall k | 0 <= k < |s0.groups[g].phase.sent|
      ensures AnsweredInTurn(s0, g, result, AfterReply(s, g), k)
    {
      assert AnsweredInTurn(s0, g, result, s, k);
    }
  }

  lemma StepAnswering(maxBatch: nat, s0: State, g: nat, result: CallResult, s: State, a: Action)
    requires Inv(maxBatch, s) && Enabled(s, a) && Answering(s0, g, result, s)
    ensures Answering(s0, g, result, After(maxBatch, s, a))
  {
    if !StepOf(a, g) {
      OthersStep(maxBatch, s, a, g);
      UntouchedAnswering(s0, g, result, s, After(maxBatch, s, a));
    } else if s.groups[g].phase.Failing? {
      FailAnswering(maxBatch, s0, g, result, s);
    } else {
      ReplyAnswering(maxBatch, s0, g, result, s);
    }
  }

  lemma {:induction false} CallsAreAnswered(maxBatch: nat, run: seq<State>, actions: seq<Action>, n: nat, m: nat, g: nat, result: CallResult)
    requires Run(maxBatch, run, actions) && n < m < |run| && actions[n] == Call(g, result)
    ensures Answering(run[n], g, result, run[m])
  {
    RunInv(maxBatch, run, actions, m - 1);
    assert StepAt(maxBatch, run, actions, m - 1);
    if m == n + 1 {
      CallAnswering(maxBatch, run[n], g, result);
    } else {
      CallsAreAnswered(maxBatch, run, actions, n, m - 1, g, result);
      StepAnswering(maxBatch, run[n], g, result, run[m - 1], actions[m - 1]);
    }
  }

  // ---------------------------------------------------------------- which answer it is

  ghost predicate PastCall(s: State, g: nat)
  {
    g < |s.groups| && (s.groups[g].phase.Failing? || s.groups[g].phase.Replying? || s.groups[g].phase.Finished?)
  }

  /** A group past its call has made it, once. */
  lemma {:induction false} CallMade(maxBatch: nat, run: seq<State>, actions: seq<Action>, m: nat, g: nat) returns (n: nat)
    requires Run(maxBatch, run, actions) && m < |run| && PastCall(run[m], g)
    ensures n < m && actions[n].Call? && actions[n].group == g && Enabled(run[n], actions[n])
  {
    RunInv(maxBatch, run, actions, m - 1);
    assert StepAt(maxBatch, run, actions, m - 1);
    n := m - 1;
    if !(actions[n].Call? && actions[n].group == g) {
      WasPastCall(maxBatch, run[n], actions[n], g);
      n := CallMade(maxBatch, run, actions, n, g);
    }
  }

  lemma WasPastCall(maxBatch: nat, s: State, a: Action, g: nat)
    requires Inv(maxBatch, s) && Enabled(s, a) && PastCall(After(maxBatch, s, a), g) && !(a.Call? && a.group == g)
    ensures PastCall(s, g)
  {
  }

  /** If the call returned a response for each request put into it, each of those requests is answered, once the group has
      finished, with the response in its place. */
  lemma SizedCallsReply(maxBatch: nat, run: seq<State>, actions: seq<Action>, n: nat, m: nat, g: nat, list: seq<Response>)
    requires Run(maxBatch, run, actions) && n < m < |run| && actions[n] == Call(g, Responses(list)) && Enabled(run[n], actions[n])
    requires |list| == |run[n].groups[g].phase.sent| && g < |run[m].groups| && run[m].groups[g].phase.Finished?
    ensures var members, sent := run[n].groups[g].members, run[n].groups[g].phase.sent;
      forall k :: 0 <= k < |sent| ==>
        && sent[k] < |members| && members[sent[k]] < |run[m].requests|
        && run[m].requests[members[sent[k]]].answers == [Reply(list[k])]
  {
    CallsAreAnswered(maxBatch, run, actions, n, m, g, Responses(list));
    var members, sent := run[n].groups[g].members, run[n].groups[g].phase.sent;
    forall k | 0 <= k < |sent|
      ensures sent[k] < |members| && members[sent[k]] < |run[m].requests|
      ensures run[m].requests[members[sent[k]]].answers == [Reply(list[k])]
    {
      assert AnsweredInTurn(run[n], g, Responses(list), run[m], k);
      assert Verdict(Responses(list), |sent|, k) == Reply(list[k]);
    }
  }

  /** The request in place `k` of the call made at `n` is `r`. */
  ghost predicate InCall(run: seq<State>, actions: seq<Action>, n: nat, k: nat, g: nat, r: nat)
  {
    && n < |actions| && n < |run| && actions[n].Call? && actions[n].group == g && Enabled(run[n], actions[n])
    && k < |run[n].groups[g].phase.sent| && run[n].groups[g].phase.sent[k] < |run[n].groups[g].members|
    && run[n].groups[g].members[run[n].groups[g].phase.sent[k]] == r
  }

  ghost function VerdictAt(run: seq<State>, actions: seq<Action>, n: nat, k: nat, g: nat, r: nat): Answer
    requires InCall(run, actions, n, k, g, r)
  {
    Verdict(actions[n].result, |run[n].groups[g].phase.sent|, k)
  }

  /** A request of a group past its call was put into that call, or was left out and told of its own context. */
  lemma InItsCall(maxBatch: nat, run: seq<State>, actions: seq<Action>, m: nat, r: nat) returns (n: nat, k: nat)
    requires Run(maxBatch, run, actions) && m < |run| && r < |run[m].requests| && PastCall(run[m], run[m].requests[r].group)
    ensures var g := run[m].requests[r].group;
      if InCall(run, actions, n, k, g, r) then n < m && Answering(run[n], g, actions[n].result, run[m]) && AnsweredInTurn(run[n], g, actions[n].result, run[m], k)
      else LeftOut(run[m].requests[r])
  {
    var g := run[m].requests[r].group;
    n := CallMade(maxBatch, run, actions, m, g);
    k := 0;
    CallsAreAnswered(maxBatch, run, actions, n, m, g, actions[n].result);
    RunInv(maxBatch, run, actions, m);
    RunInv(maxBatch, run, actions, n);
    assert Placed(run[m], r) && PhaseOk(run[n], g) && MembersOk(run[n], g);
    var i, sent := run[m].requests[r].index, run[n].groups[g].phase.sent;
    if i in sent {
      k :| 0 <= k < |sent| && sent[k] == i;
    } else {
      assert RequestOk(run[n].groups[g].phase, i, run[n].requests[r]);
      LeftOutStays(maxBatch, run, actions, n, m, r);
    }
  }

  lemma {:induction false} LeftOutStays(maxBatch: nat, run: seq<State>, actions: seq<Action>, n: nat, m: nat, r: nat)
    requires Run(maxBatch, run, actions) && n <= m < |run| && r < |run[n].requests| && LeftOut(run[n].requests[r])
    ensures r < |run[m].requests| && LeftOut(run[m].requests[r])
  {
    if n < m {
      LeftOutStays(maxBatch, run, actions, n, m - 1, r);
      RunInv(maxBatch, run, actions, m - 1);
      assert StepAt(maxBatch, run, actions, m - 1);
      StepKept(maxBatch, run[m - 1], actions[m - 1]);
      LiveAcross(maxBatch, run[m - 1], actions[m - 1], r);
      RunInv(maxBatch, run, actions, m);
      OneAnswerAtMost(maxBatch, run, actions, m, r);
    }
  }

  /** Once its group has finished, a caller whose context is live was in the call, and has exactly the answer the call's
      result gives it: the response in its place if there were as many responses as requests, or else the error. */
  lemma LiveCallersGetTheirCall(maxBatch: nat, run: seq<State>, actions: seq<Action>, m: nat, r: nat) returns (n: nat, k: nat)
    requires Run(maxBatch, run, actions) && m < |run| && r < |run[m].requests| && run[m].requests[r].live
    requires run[m].requests[r].group < |run[m].groups| && run[m].groups[run[m].requests[r].group].phase.Finished?
    ensures n < m && InCall(run, actions, n, k, run[m].requests[r].group, r)
    ensures run[m].requests[r].answers == [VerdictAt(run, actions, n, k, run[m].requests[r].group, r)]
  {
    n, k := InItsCall(maxBatch, run, actions, m, r);
  }

  /** A batch error is told only if the group's call failed with it, or returned another number of responses. */
  lemma ErrorsComeFromCalls(maxBatch: nat, run: seq<State>, actions: seq<Action>, m: nat, r: nat, message: string) returns (n: nat)
    requires Run(maxBatch, run, actions) && m < |run| && r < |run[m].requests| && BatchError(message) in run[m].requests[r].answers
    ensures n < m && actions[n].Call? && actions[n].group == run[m].requests[r].group && Enabled(run[n], actions[n])
    ensures match actions[n].result
      case CallFailed(e) => e == message
      case Responses(list) => |list| != |run[n].groups[actions[n].group].phase.sent| && message == MISMATCH
  {
    RunInv(maxBatch, run, actions, m);
    OneAnswerAtMost(maxBatch, run, actions, m, r);
    assert Placed(run[m], r) && RequestOk(run[m].groups[run[m].requests[r].group].phase, run[m].requests[r].index, run[m].requests[r]);
    var k;
    n, k := InItsCall(maxBatch, run, actions, m, r);
  }
}
