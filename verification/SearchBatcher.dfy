/** The gateway's batcher of searches bound for one worker, as interleaved steps of callers and timers. */
module SearchBatcher {
  import opened Prelude

  type Key = string
  type Query = nat

  datatype Response = Response(query: Query, content: string)

  datatype Answer = Reply(resp: Response) | ContextError | BatchError(message: string)

  /** What the batch call returned. */
  datatype CallResult = Responses(list: seq<Response>) | CallFailed(message: string)

  /** Where the goroutine of a group is. `sent` lists the positions of the requests put into the call. */
  datatype Phase =
    | Collecting
    | Scanning(next: nat, sent: seq<nat>)
    | Failing(message: string, next: nat, sent: seq<nat>)
    | Replying(list: seq<Response>, next: nat, sent: seq<nat>)
    | Finished

  datatype Group = Group(key: Key, members: seq<nat>, phase: Phase)

  /** A caller's request: whether its context is live, its place, and what was put into its two channels. */
  datatype Request = Request(query: Query, live: bool, group: nat, index: nat, answers: seq<Answer>)

  datatype State = State(pending: map<Key, nat>, groups: seq<Group>, requests: seq<Request>)

  const Initial: State := State(map[], [], [])

  datatype Action =
    | Enqueue(key: Key, query: Query)
    | Cancel(request: nat)
    | Drain(group: nat)
    | Scan(group: nat)
    | Call(group: nat, result: CallResult)
    | Deliver(group: nat)

  // ---------------------------------------------------------------- the steps

  function Send(s: State, r: nat, a: Answer): State
    requires r < |s.requests|
  {
    s.(requests := s.requests[r := s.requests[r].(answers := s.requests[r].answers + [a])])
  }

  function SetPhase(s: State, g: nat, phase: Phase): State
    requires g < |s.groups|
  {
    s.(groups := s.groups[g := s.groups[g].(phase := phase)])
  }

  function AfterJoin(s: State, g: nat, query: Query): State
    requires g < |s.groups|
  {
    s.(groups := s.groups[g := s.groups[g].(members := s.groups[g].members + [|s.requests|])],
       requests := s.requests + [Request(query, true, g, |s.groups[g].members|, [])])
  }

  function AfterOpen(s: State, key: Key, query: Query): State
  {
    State(s.pending[key := |s.groups|], s.groups + [Group(key, [|s.requests|], Collecting)],
          s.requests + [Request(query, true, |s.groups|, 0, [])])
  }

  /** A caller joins the pending group of its worker, or opens one if there is none or it is full. */
  function AfterEnqueue(maxBatch: nat, s: State, key: Key, query: Query): State
    requires key in s.pending ==> s.pending[key] < |s.groups|
  {
    if key in s.pending && |s.groups[s.pending[key]].members| < maxBatch then AfterJoin(s, s.pending[key], query)
    else AfterOpen(s, key, query)
  }

  /** The timer fires: whatever group is pending under the key is no longer. */
  function AfterDrain(s: State, g: nat): State
    requires g < |s.groups|
  {
    SetPhase(s, g, Scanning(0, [])).(pending := s.pending - {s.groups[g].key})
  }

  function AfterScan(s: State, g: nat): State
    requires g < |s.groups| && s.groups[g].phase.Scanning? && s.groups[g].phase.next < |s.groups[g].members|
    requires s.groups[g].members[s.groups[g].phase.next] < |s.requests|
  {
    var p := s.groups[g].phase;
    var r := s.groups[g].members[p.next];
    if s.requests[r].live then SetPhase(s, g, Scanning(p.next + 1, p.sent + [p.next]))
    else Send(SetPhase(s, g, Scanning(p.next + 1, p.sent)), r, ContextError)
  }

  function AfterCall(s: State, g: nat, result: CallResult): State
    requires g < |s.groups| && s.groups[g].phase.Scanning?
  {
    var sent := s.groups[g].phase.sent;
    if sent == [] then SetPhase(s, g, Finished)
    else match result
      case CallFailed(message) => SetPhase(s, g, Failing(message, 0, sent))
      case Responses(list) =>
        if |list| != |sent| then SetPhase(s, g, Failing("batch search response size mismatch", 0, sent))
        else SetPhase(s, g, Replying(list, 0, sent))
  }

  function AfterFail(s: State, g: nat): State
    requires g < |s.groups| && s.groups[g].phase.Failing? && CanDeliver(s, g)
  {
    var p := s.groups[g].phase;
    if p.next == |s.groups[g].members| then SetPhase(s, g, Finished)
    else
      var r := s.groups[g].members[p.next];
      var t := SetPhase(s, g, Failing(p.message, p.next + 1, p.sent));
      if s.requests[r].live then Send(t, r, BatchError(p.message)) else t
  }

  function AfterReply(s: State, g: nat): State
    requires g < |s.groups| && s.groups[g].phase.Replying? && CanDeliver(s, g)
  {
    var p := s.groups[g].phase;
    if p.next == |p.list| then SetPhase(s, g, Finished)
    else Send(SetPhase(s, g, Replying(p.list, p.next + 1, p.sent)), s.groups[g].members[p.sent[p.next]], Reply(p.list[p.next]))
  }

  function AfterDeliver(s: State, g: nat): State
    requires g < |s.groups| && CanDeliver(s, g)
  {
    if s.groups[g].phase.Failing? then AfterFail(s, g) else AfterReply(s, g)
  }

  predicate CanDeliver(s: State, g: nat)
  {
    && g < |s.groups|
    && match s.groups[g].phase
       case Failing(_, next, _) =>
         next <= |s.groups[g].members| && (next < |s.groups[g].members| ==> s.groups[g].members[next] < |s.requests|)
       case Replying(list, next, sent) =>
         next <= |list| == |sent| &&
         (next < |list| ==> sent[next] < |s.groups[g].members| && s.groups[g].members[sent[next]] < |s.requests|)
       case _ => false
  }

  /** The worker answers each request of the call with a response to that request. */
  ghost predicate Aligned(s: State, g: nat, result: CallResult)
    requires g < |s.groups| && s.groups[g].phase.Scanning?
  {
    var sent := s.groups[g].phase.sent;
    result.Responses? && |result.list| == |sent| ==>
      forall m :: 0 <= m < |sent| && sent[m] < |s.groups[g].members| && s.groups[g].members[sent[m]] < |s.requests| ==>
        result.list[m].query == s.requests[s.groups[g].members[sent[m]]].query
  }

  ghost predicate Enabled(s: State, a: Action)
  {
    match a
    case Enqueue(key, _) => key in s.pending ==> s.pending[key] < |s.groups|
    case Cancel(r) => r < |s.requests|
    case Drain(g) => g < |s.groups| && s.groups[g].phase.Collecting?
    case Scan(g) =>
      && g < |s.groups| && s.groups[g].phase.Scanning? && s.groups[g].phase.next < |s.groups[g].members|
      && s.groups[g].members[s.groups[g].phase.next] < |s.requests|
    case Call(g, result) =>
      && g < |s.groups| && s.groups[g].phase.Scanning? && s.groups[g].phase.next == |s.groups[g].members|
      && Aligned(s, g, result)
    case Deliver(g) => CanDeliver(s, g)
  }

  ghost function After(maxBatch: nat, s: State, a: Action): State
    requires Enabled(s, a)
  {
    match a
    case Enqueue(key, query) => AfterEnqueue(maxBatch, s, key, query)
    case Cancel(r) => s.(requests := s.requests[r := s.requests[r].(live := false)])
    case Drain(g) => AfterDrain(s, g)
    case Scan(g) => AfterScan(s, g)
    case Call(g, result) => AfterCall(s, g, result)
    case Deliver(g) => AfterDeliver(s, g)
  }

  // ---------------------------------------------------------------- the invariant

  /** Scanned and left out: its caller's context had ended, and it was told so. */
  ghost predicate LeftOut(r: Request)
  {
    !r.live && r.answers == [ContextError]
  }

  /** What a request in place `i` of a group may have been sent, by the group's phase. */
  ghost predicate RequestOk(p: Phase, i: nat, r: Request)
  {
    match p
    case Collecting => r.answers == []
    case Scanning(next, sent) =>
      if i in sent || i >= next then r.answers == [] else LeftOut(r)
    case Failing(message, next, sent) =>
      if i !in sent then LeftOut(r)
      else if i >= next then r.answers == []
      else r.answers == [BatchError(message)] || (r.answers == [] && !r.live)
    case Replying(list, next, sent) =>
      if i !in sent then LeftOut(r)
      else if i in sent[Min(next, |sent|)..] then r.answers == []
      else |r.answers| == 1 && r.answers[0].Reply? && r.answers[0].resp.query == r.query
    case Finished => Settled(r)
  }

  /** One answer, the response to its own query or an error; none only where the caller has gone. */
  ghost predicate Settled(r: Request)
  {
    || (|r.answers| == 1 && r.answers[0].Reply? && r.answers[0].resp.query == r.query)
    || (|r.answers| == 1 && r.answers[0].BatchError?)
    || (!r.live && (r.answers == [] || r.answers == [ContextError]))
  }

  ghost predicate Increasing(xs: seq<nat>, bound: nat)
  {
    (forall i, j :: 0 <= i < j < |xs| ==> xs[i] < xs[j]) && forall i :: 0 <= i < |xs| ==> xs[i] < bound
  }

  ghost predicate PhaseOk(s: State, g: nat)
    requires g < |s.groups|
  {
    var n := |s.groups[g].members|;
    match s.groups[g].phase
    case Scanning(next, sent) => next <= n && Increasing(sent, next)
    case Failing(_, next, sent) => next <= n && Increasing(sent, n)
    case Replying(list, next, sent) =>
      && next <= |list| == |sent| && Increasing(sent, n)
      && forall m :: 0 <= m < |sent| && s.groups[g].members[sent[m]] < |s.requests| ==>
           list[m].query == s.requests[s.groups[g].members[sent[m]]].query
    case _ => true
  }

  /** The group's members are requests that know their place in it. */
  ghost predicate MembersOk(s: State, g: nat)
    requires g < |s.groups|
  {
    forall i :: 0 <= i < |s.groups[g].members| ==>
      var r := s.groups[g].members[i];
      r < |s.requests| && s.requests[r].group == g && s.requests[r].index == i
  }

  ghost predicate Placed(s: State, r: nat)
    requires r < |s.requests|
  {
    var q := s.requests[r];
    q.group < |s.groups| && q.index < |s.groups[q.group].members| && s.groups[q.group].members[q.index] == r
  }

  ghost predicate Inv(maxBatch: nat, s: State)
  {
    && (forall k :: k in s.pending ==> s.pending[k] < |s.groups| && s.groups[s.pending[k]].key == k && s.groups[s.pending[k]].phase.Collecting?)
    && (forall g :: 0 <= g < |s.groups| ==> 1 <= |s.groups[g].members| <= maxBatch && PhaseOk(s, g) && MembersOk(s, g))
    && (forall r :: 0 <= r < |s.requests| ==>
          Placed(s, r) && RequestOk(s.groups[s.requests[r].group].phase, s.requests[r].index, s.requests[r]))
  }

  // ---------------------------------------------------------------- every step keeps it

  lemma JoinInv(maxBatch: nat, s: State, g: nat, query: Query)
    requires Inv(maxBatch, s) && g < |s.groups| && s.groups[g].phase.Collecting? && |s.groups[g].members| < maxBatch
    ensures Inv(maxBatch, AfterJoin(s, g, query))
  {
    var t := AfterJoin(s, g, query);
    forall r | 0 <= r < |t.requests|
      ensures Placed(t, r) && RequestOk(t.groups[t.requests[r].group].phase, t.requests[r].index, t.requests[r])
    {
      if r < |s.requests| { assert Placed(s, r); }
    }
    forall h | 0 <= h < |t.groups|
      ensures 1 <= |t.groups[h].members| <= maxBatch && PhaseOk(t, h) && MembersOk(t, h)
    {
      assert PhaseOk(s, h) && MembersOk(s, h);
    }
  }

  lemma OpenInv(maxBatch: nat, s: State, key: Key, query: Query)
    requires maxBatch > 0 && Inv(maxBatch, s)
    ensures Inv(maxBatch, AfterOpen(s, key, query))
  {
  }

  lemma CancelInv(maxBatch: nat, s: State, r: nat)
    requires Inv(maxBatch, s) && r < |s.requests|
    ensures Inv(maxBatch, s.(requests := s.requests[r := s.requests[r].(live := false)]))
  {
  }

  /** The same request, as far as callers and groups are concerned. */
  ghost predicate SameRequest(q: Request, q': Request)
  {
    q'.query == q.query && q'.live == q.live && q'.group == q.group && q'.index == q.index
  }

  /** A step of one group's goroutine: only its phase and its own requests' answers change. */
  ghost predicate GroupStep(s: State, t: State, g: nat)
  {
    && g < |s.groups| == |t.groups| && t.groups == s.groups[g := s.groups[g].(phase := t.groups[g].phase)]
    && |t.requests| == |s.requests|
    && forall r :: 0 <= r < |s.requests| ==>
         SameRequest(s.requests[r], t.requests[r]) && (s.requests[r].group != g ==> t.requests[r] == s.requests[r])
  }

  lemma GroupStepInv(maxBatch: nat, s: State, t: State, g: nat)
    requires Inv(maxBatch, s) && GroupStep(s, t, g) && PhaseOk(t, g)
    requires forall k :: k in t.pending ==> k in s.pending && t.pending[k] == s.pending[k] && t.pending[k] != g
    requires forall r :: 0 <= r < |t.requests| && t.requests[r].group == g ==> RequestOk(t.groups[g].phase, t.requests[r].index, t.requests[r])
    ensures Inv(maxBatch, t)
  {
  }

  lemma DrainInv(maxBatch: nat, s: State, g: nat)
    requires Inv(maxBatch, s) && Enabled(s, Drain(g))
    ensures Inv(maxBatch, AfterDrain(s, g))
  {
    GroupStepInv(maxBatch, s, AfterDrain(s, g), g);
  }

  lemma ScanInv(maxBatch: nat, s: State, g: nat)
    requires Inv(maxBatch, s) && Enabled(s, Scan(g))
    ensures Inv(maxBatch, AfterScan(s, g))
  {
    GroupStepInv(maxBatch, s, AfterScan(s, g), g);
  }

  lemma CallInv(maxBatch: nat, s: State, g: nat, result: CallResult)
    requires Inv(maxBatch, s) && Enabled(s, Call(g, result))
    ensures Inv(maxBatch, AfterCall(s, g, result))
  {
    GroupStepInv(maxBatch, s, AfterCall(s, g, result), g);
  }

  lemma FailInv(maxBatch: nat, s: State, g: nat)
    requires Inv(maxBatch, s) && g < |s.groups| && s.groups[g].phase.Failing? && CanDeliver(s, g)
    ensures Inv(maxBatch, AfterFail(s, g))
  {
    GroupStepInv(maxBatch, s, AfterFail(s, g), g);
  }

  /** The next reply goes to a request that has been sent nothing, and is all that is left out of what is still due. */
  lemma NextReply(s: State, g: nat)
    requires g < |s.groups| && s.groups[g].phase.Replying? && PhaseOk(s, g)
    ensures var p := s.groups[g].phase;
      p.next < |p.list| ==>
        (p.sent[p.next] in p.sent[p.next..] && forall i :: i in p.sent[p.next + 1..] <==> i in p.sent[p.next..] && i != p.sent[p.next])
  {
  }

  /** There are replies left to send. */
  ghost predicate ReplyDue(s: State, g: nat)
  {
    g < |s.groups| && s.groups[g].phase.Replying? && s.groups[g].phase.next < |s.groups[g].phase.list| && CanDeliver(s, g)
  }

  lemma AllReplied(maxBatch: nat, s: State, g: nat)
    requires Inv(maxBatch, s) && g < |s.groups| && s.groups[g].phase.Replying? && CanDeliver(s, g) && !ReplyDue(s, g)
    ensures Inv(maxBatch, AfterReply(s, g))
  {
    GroupStepInv(maxBatch, s, AfterReply(s, g), g);
  }

  /** After the next reply every request of the group has been sent what its place calls for. */
  lemma NextReplyOk(maxBatch: nat, s: State, g: nat, r: nat)
    requires Inv(maxBatch, s) && ReplyDue(s, g) && r < |s.requests| && s.requests[r].group == g
    ensures var t := AfterReply(s, g); RequestOk(t.groups[g].phase, t.requests[r].index, t.requests[r])
  {
    NextReply(s, g);
    assert Placed(s, r) && MembersOk(s, g) && PhaseOk(s, g);
    assert RequestOk(s.groups[g].phase, s.requests[r].index, s.requests[r]);
  }

  lemma ReplyIsGroupStep(maxBatch: nat, s: State, g: nat)
    requires Inv(maxBatch, s) && ReplyDue(s, g)
    ensures GroupStep(s, AfterReply(s, g), g) && PhaseOk(AfterReply(s, g), g)
  {
    assert PhaseOk(s, g) && MembersOk(s, g);
  }

  lemma ReplyInv(maxBatch: nat, s: State, g: nat)
    requires Inv(maxBatch, s) && g < |s.groups| && s.groups[g].phase.Replying? && CanDeliver(s, g)
    ensures Inv(maxBatch, AfterReply(s, g))
  {
    if ReplyDue(s, g) {
      forall r: nat | r < |s.requests| && s.requests[r].group == g
        ensures var t := AfterReply(s, g); RequestOk(t.groups[g].phase, t.requests[r].index, t.requests[r])
      {
        NextReplyOk(maxBatch, s, g, r);
      }
      ReplyIsGroupStep(maxBatch, s, g);
      GroupStepInv(maxBatch, s, AfterReply(s, g), g);
    } else {
      AllReplied(maxBatch, s, g);
    }
  }

  lemma StepInv(maxBatch: nat, s: State, a: Action)
    requires maxBatch > 0 && Inv(maxBatch, s) && Enabled(s, a)
    ensures Inv(maxBatch, After(maxBatch, s, a))
  {
    match a
    case Enqueue(key, query) =>
      if key in s.pending && |s.groups[s.pending[key]].members| < maxBatch {
        JoinInv(maxBatch, s, s.pending[key], query);
      } else {
        OpenInv(maxBatch, s, key, query);
      }
    case Cancel(r) => CancelInv(maxBatch, s, r);
    case Drain(g) => DrainInv(maxBatch, s, g);
    case Scan(g) => ScanInv(maxBatch, s, g);
    case Call(g, result) => CallInv(maxBatch, s, g, result);
    case Deliver(g) => if s.groups[g].phase.Failing? { FailInv(maxBatch, s, g); } else { ReplyInv(maxBatch, s, g); }
  }

  /** What a step leaves as it is: queries and places of requests, members and keys of drained groups. */
  ghost predicate Kept(s: State, t: State)
  {
    && |s.requests| <= |t.requests| && |s.groups| <= |t.groups|
    && (forall r :: 0 <= r < |s.requests| ==>
          t.requests[r].query == s.requests[r].query && t.requests[r].group == s.requests[r].group
          && s.requests[r].answers <= t.requests[r].answers)
    && forall g :: 0 <= g < |s.groups| ==>
         && t.groups[g].key == s.groups[g].key
         && (!s.groups[g].phase.Collecting? ==> t.groups[g].members == s.groups[g].members && !t.groups[g].phase.Collecting?)
  }

  lemma DeliverKept(s: State, g: nat)
    requires CanDeliver(s, g)
    ensures Kept(s, AfterDeliver(s, g))
  {
  }

  lemma EnqueueKept(maxBatch: nat, s: State, key: Key, query: Query)
    requires Inv(maxBatch, s)
    ensures Kept(s, AfterEnqueue(maxBatch, s, key, query))
  {
  }

  lemma CallKept(s: State, g: nat, result: CallResult)
    requires Enabled(s, Call(g, result))
    ensures Kept(s, AfterCall(s, g, result))
  {
  }

  lemma ScanKept(s: State, g: nat)
    requires Enabled(s, Scan(g))
    ensures Kept(s, AfterScan(s, g))
  {
  }

  lemma DrainKept(s: State, g: nat)
    requires Enabled(s, Drain(g))
    ensures Kept(s, AfterDrain(s, g))
  {
  }

  lemma CancelKept(s: State, r: nat)
    requires r < |s.requests|
    ensures Kept(s, s.(requests := s.requests[r := s.requests[r].(live := false)]))
  {
  }

  lemma StepKept(maxBatch: nat, s: State, a: Action)
    requires Inv(maxBatch, s) && Enabled(s, a)
    ensures Kept(s, After(maxBatch, s, a))
  {
    match a
    case Enqueue(key, query) => EnqueueKept(maxBatch, s, key, query);
    case Cancel(r) => CancelKept(s, r);
    case Drain(g) => DrainKept(s, g);
    case Scan(g) => ScanKept(s, g);
    case Call(g, result) => CallKept(s, g, result);
    case Deliver(g) => DeliverKept(s, g);
  }

  // ---------------------------------------------------------------- whole runs

  ghost predicate StepAt(maxBatch: nat, run: seq<State>, actions: seq<Action>, i: nat)
  {
    i < |actions| && i + 1 < |run| ==> Enabled(run[i], actions[i]) && run[i + 1] == After(maxBatch, run[i], actions[i])
  }

  ghost predicate Run(maxBatch: nat, run: seq<State>, actions: seq<Action>)
  {
    maxBatch > 0 && |run| == |actions| + 1 && run[0] == Initial && forall i: nat :: StepAt(maxBatch, run, actions, i)
  }

  lemma {:induction false} RunInv(maxBatch: nat, run: seq<State>, actions: seq<Action>, n: nat)
    requires Run(maxBatch, run, actions) && n < |run|
    ensures Inv(maxBatch, run[n])
  {
    if n > 0 {
      RunInv(maxBatch, run, actions, n - 1);
      assert StepAt(maxBatch, run, actions, n - 1);
      StepInv(maxBatch, run[n - 1], actions[n - 1]);
    }
  }

  lemma {:induction false} RunKept(maxBatch: nat, run: seq<State>, actions: seq<Action>, n: nat, m: nat)
    requires Run(maxBatch, run, actions) && n <= m < |run|
    ensures Kept(run[n], run[m])
  {
    if n < m {
      RunKept(maxBatch, run, actions, n, m - 1);
      RunInv(maxBatch, run, actions, m - 1);
      assert StepAt(maxBatch, run, actions, m - 1);
      StepKept(maxBatch, run[m - 1], actions[m - 1]);
    }
  }

  /** A drained group is never again reachable from the pending table and its members never change, and no group ever
      has more than `maxBatch`, in any interleaving. */
  lemma DrainedGroupsAreClosed(maxBatch: nat, run: seq<State>, actions: seq<Action>, n: nat, m: nat, g: nat)
    requires Run(maxBatch, run, actions) && n <= m < |run| && g < |run[n].groups|
    ensures g < |run[m].groups| && |run[m].groups[g].members| <= maxBatch
    ensures !run[n].groups[g].phase.Collecting? ==>
      run[m].groups[g].members == run[n].groups[g].members && forall k :: k in run[m].pending ==> run[m].pending[k] != g
  {
    RunKept(maxBatch, run, actions, n, m);
    RunInv(maxBatch, run, actions, m);
  }

  /** Whatever the phase, a request has been sent at most one answer, and a response only to its own query. */
  lemma AnswersAreOwn(p: Phase, i: nat, r: Request)
    requires RequestOk(p, i, r)
    ensures |r.answers| <= 1 && (|r.answers| == 1 && r.answers[0].Reply? ==> r.answers[0].resp.query == r.query)
  {
  }

  /** No send ever finds its channel full, and every response goes to the caller whose query it answers. */
  lemma OneAnswerAtMost(maxBatch: nat, run: seq<State>, actions: seq<Action>, n: nat, r: nat)
    requires Run(maxBatch, run, actions) && n < |run| && r < |run[n].requests|
    ensures var q := run[n].requests[r];
      |q.answers| <= 1 && (|q.answers| == 1 && q.answers[0].Reply? ==> q.answers[0].resp.query == q.query)
  {
    RunInv(maxBatch, run, actions, n);
    var q := run[n].requests[r];
    AnswersAreOwn(run[n].groups[q.group].phase, q.index, q);
  }

  /** Once a group has finished, each of its callers whose context is still live has been sent exactly one answer: the
      response to its own query, or the error of the batch. */
  lemma LiveCallersAreAnswered(maxBatch: nat, run: seq<State>, actions: seq<Action>, n: nat, r: nat)
    requires Run(maxBatch, run, actions) && n < |run| && r < |run[n].requests| && run[n].requests[r].live
    ensures var q := run[n].requests[r];
      && q.group < |run[n].groups|
      && (run[n].groups[q.group].phase.Finished? ==>
            |q.answers| == 1 && (q.answers[0].BatchError? || (q.answers[0].Reply? && q.answers[0].resp.query == q.query)))
  {
    RunInv(maxBatch, run, actions, n);
    assert Placed(run[n], r);
  }

  // ---------------------------------------------------------------- a drained group gets there

  /** How far a drained group is from its end: the stage it is in, and what is left of the stage. */
  function Left(g: Group): (int, int)
  {
    match g.phase
    case Collecting => (3, 0)
    case Scanning(next, _) => (2, |g.members| - next)
    case Failing(_, next, _) => (1, |g.members| - next)
    case Replying(list, next, _) => (1, |list| - next)
    case Finished => (0, 0)
  }

  ghost predicate Nearer(a: (int, int), b: (int, int))
  {
    0 <= a.0 < b.0 || (a.0 == b.0 && 0 <= a.1 < b.1)
  }

  ghost predicate OwnStep(s: State, g: nat, a: Action)
  {
    Enabled(s, a) && ((a.Scan? && a.group == g) || (a.Call? && a.group == g) || (a.Deliver? && a.group == g))
  }

  /** A drained group that has not finished always has a step of its own to take, none of which waits for a caller, and
      every such step takes it nearer its end. */
  lemma DrainedGroupsFinish(maxBatch: nat, s: State, g: nat)
    requires Inv(maxBatch, s) && g < |s.groups| && !s.groups[g].phase.Collecting? && !s.groups[g].phase.Finished?
    ensures exists a :: OwnStep(s, g, a)
    ensures forall a :: OwnStep(s, g, a) ==> Nearer(Left(After(maxBatch, s, a).groups[g]), Left(s.groups[g]))
  {
    HasOwnStep(maxBatch, s, g);
    forall a | OwnStep(s, g, a)
      ensures Nearer(Left(After(maxBatch, s, a).groups[g]), Left(s.groups[g]))
    {
    }
  }

  lemma HasOwnStep(maxBatch: nat, s: State, g: nat)
    requires Inv(maxBatch, s) && g < |s.groups| && !s.groups[g].phase.Collecting? && !s.groups[g].phase.Finished?
    ensures exists a :: OwnStep(s, g, a)
  {
    assert MembersOk(s, g) && PhaseOk(s, g);
    var p := s.groups[g].phase;
    if p.Scanning? && p.next < |s.groups[g].members| {
      assert OwnStep(s, g, Scan(g));
    } else if p.Scanning? {
      assert OwnStep(s, g, Call(g, CallFailed("")));
    } else {
      assert OwnStep(s, g, Deliver(g));
    }
  }

  /** A timer may remove the pending entry of a newer group: with one request to a batch, the first group's timer leaves
      the second group collecting but unreachable. It still drains and answers its callers by its own timer. */
  lemma NewerGroupUnlisted(k: Key)
    ensures var run := [Initial, AfterOpen(Initial, k, 0), AfterOpen(AfterOpen(Initial, k, 0), k, 1),
                        AfterDrain(AfterOpen(AfterOpen(Initial, k, 0), k, 1), 0)];
      && Run(1, run, [Enqueue(k, 0), Enqueue(k, 1), Drain(0)])
      && run[2].pending[k] == 1 && k !in run[3].pending && run[3].groups[1].phase.Collecting? && Enabled(run[3], Drain(1))
  {
  }

  // ---------------------------------------------------------------- the worker's side

  /** What searching for one request of a batch comes to. */
  datatype Outcome = Found(resp: Response) | Failed(message: string)

  /** A request whose lease check fails is not searched, unless it is the only one: then the check is not made. */
  function OutcomeAt(leases: seq<Option<string>>, searches: seq<Outcome>, i: nat): Outcome
    requires i < |leases| == |searches|
  {
    if |searches| > 1 && leases[i].Some? then Failed(leases[i].value) else searches[i]
  }

  ghost predicate Permutation(order: seq<nat>, n: nat)
  {
    Distinct(order) && (forall k :: 0 <= k < |order| ==> order[k] < n) && forall i :: 0 <= i < n ==> i in order
  }

  /** Runs a batch's searches, finishing in any order: a response for every request, at its own place, or the error that
      came first. */
  method BatchSearch(leases: seq<Option<string>>, searches: seq<Outcome>, order: seq<nat>) returns (result: CallResult)
    requires |leases| == |searches| && Permutation(order, |searches|)
    ensures result.Responses? <==> searches != [] && forall i :: 0 <= i < |searches| ==> OutcomeAt(leases, searches, i).Found?
    ensures result.Responses? ==>
      |result.list| == |searches| && forall i :: 0 <= i < |searches| ==> result.list[i] == OutcomeAt(leases, searches, i).resp
    ensures result.CallFailed? && searches != [] ==>
      exists k :: 0 <= k < |order| && OutcomeAt(leases, searches, order[k]) == Failed(result.message)
        && forall j :: 0 <= j < k ==> OutcomeAt(leases, searches, order[j]).Found?
  {
    if |searches| == 0 {
      return CallFailed("batch search requests are empty");
    }
    var responses := new Response[|searches|];
    var firstErr: Option<string> := None;
    ghost var at := 0;
    for k := 0 to |order|
      invariant firstErr.None? ==> forall j :: 0 <= j < k ==>
          OutcomeAt(leases, searches, order[j]).Found? && responses[order[j]] == OutcomeAt(leases, searches, order[j]).resp
      invariant firstErr.Some? ==> at < k && OutcomeAt(leases, searches, order[at]) == Failed(firstErr.value)
      invariant firstErr.Some? ==> forall j :: 0 <= j < at ==> OutcomeAt(leases, searches, order[j]).Found?
    {
      var i := order[k];
      var outcome := if |searches| > 1 && leases[i].Some? then Failed(leases[i].value) else searches[i];
      match outcome {
        case Found(resp) =>
          responses[i] := resp;
        case Failed(message) =>
          if firstErr.None? {
            firstErr := Some(message);
            at := k;
          }
      }
    }
    if firstErr.Some? {
      return CallFailed(firstErr.value);
    }
    forall i | 0 <= i < |searches|
      ensures OutcomeAt(leases, searches, i).Found? && responses[i] == OutcomeAt(leases, searches, i).resp
    {
      assert i in order;
    }
    return Responses(responses[..]);
  }

  /** A batch that is answered: every search ran and succeeded. */
  ghost predicate AnsweredBatch(leases: seq<Option<string>>, searches: seq<Outcome>)
  {
    |leases| == |searches| > 0 && forall i :: 0 <= i < |searches| ==> OutcomeAt(leases, searches, i).Found?
  }

  ghost predicate AllAdmissible(leases: seq<Option<string>>)
  {
    forall i :: 0 <= i < |leases| ==> leases[i].None?
  }

  /** Answered batches of `n` searches hold only leases that would be admitted, whatever the searches, if and only if
      there is more than one: the only search of a batch of one is answered under a stale lease. */
  lemma BatchOfOneSkipsLease(n: nat)
    requires n > 0
    ensures (forall leases: seq<Option<string>>, searches: seq<Outcome> ::
               |leases| == n && AnsweredBatch(leases, searches) ==> AllAdmissible(leases))
       <==> n > 1
  {
    if n == 1 {
      var leases, searches := [Some("stale")], [Found(Response(0, ""))];
      assert OutcomeAt(leases, searches, 0).Found?;
      assert AnsweredBatch(leases, searches) && leases[0].Some?;
    } else {
      forall leases: seq<Option<string>>, searches: seq<Outcome> | |leases| == n && AnsweredBatch(leases, searches)
        ensures AllAdmissible(leases)
      {
        forall i | 0 <= i < |leases|
          ensures leases[i].None?
        {
          assert OutcomeAt(leases, searches, i).Found?;
        }
      }
    }
  }
}
