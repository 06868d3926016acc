/** Concurrent delivery of one batch of outgoing requests: one task per recipient,
    all tasks sharing a global semaphore and one semaphore per host. */
module Delivery {
  import opened Base

  /** The exceptions a POST can raise, as far as the caller tells them apart. */
  datatype Failure = HttpStatus(code: int) | Transport | OtherError

  datatype Request = Request(activityId: int, recipient: string, host: string)

  datatype Result = Response(status: int) | Exception(exc: Failure) | Skipped(host: string)

  datatype Outcome = Outcome(activityId: int, result: Result, retryAfter: Option<int>)

  /** What the remote side answers to one POST; retryAfter is the parsed `Retry-After` instant. */
  datatype Reply = Success(status: int) | Failed(exc: Failure, retryAfter: Option<int>)

  /** The network: any reply to any request. */
  type Network = Request -> Reply

  predicate Throttled(code: int) {
    code == 429 || code == 503
  }

  /** A failure that every other request to the same recipient would meet as well. */
  predicate IsHostLevelFailure(exc: Failure) {
    match exc
    case HttpStatus(code) => Throttled(code)
    case Transport => true
    case OtherError => false
  }

  predicate Unavailable(o: Outcome) {
    o.result.Exception? && IsHostLevelFailure(o.result.exc)
  }

  function Deliver(req: Request, reply: Reply): Outcome {
    match reply
    case Success(status) => Outcome(req.activityId, Response(status), None)
    case Failed(exc, retryAfter) =>
      Outcome(req.activityId, Exception(exc), if exc.HttpStatus? && Throttled(exc.code) then retryAfter else None)
  }

  function SkipAfter(req: Request, o: Outcome): Outcome {
    Outcome(req.activityId, Skipped(req.host), o.retryAfter)
  }

  // ---------------------------------------------------------------- one group

  /** The outcomes of the requests a task still has to deal with. */
  function OutcomesFrom(group: seq<Request>, net: Network, skip: Option<Outcome>): seq<Outcome> {
    if group == [] then
      []
    else if skip.Some? then
      [skip.value.(activityId := group[0].activityId)] + OutcomesFrom(group[1..], net, skip)
    else
      var o := Deliver(group[0], net(group[0]));
      [o] + OutcomesFrom(group[1..], net, SkipAfterDelivery(group[0], o))
  }

  function SkipAfterDelivery(req: Request, o: Outcome): Option<Outcome> {
    if Unavailable(o) then Some(SkipAfter(req, o)) else None
  }

  lemma OwedStep(done: seq<Outcome>, group: seq<Request>, net: Network, skip: Option<Outcome>, i: nat)
    requires i < |group|
    ensures var o := if skip.Some? then skip.value.(activityId := group[i].activityId)
                     else Deliver(group[i], net(group[i]));
      var skip' := if skip.Some? then skip else SkipAfterDelivery(group[i], o);
      done + OutcomesFrom(group[i..], net, skip) == (done + [o]) + OutcomesFrom(group[i + 1..], net, skip')
  {
    assert group[i..][1..] == group[i + 1..];
    var o := if skip.Some? then skip.value.(activityId := group[i].activityId) else Deliver(group[i], net(group[i]));
    Regroup(done, [o], OutcomesFrom(group[i + 1..], net, if skip.Some? then skip else SkipAfterDelivery(group[i], o)));
  }

  /** Deliver requests for a single recipient, strictly in order. */
  method DeliverGroup(group: seq<Request>, net: Network) returns (outcomes: seq<Outcome>)
    ensures outcomes == OutcomesFrom(group, net, None)
  {
    outcomes := [];
    var skip: Option<Outcome> := None;
    assert group[0..] == group;
    for i := 0 to |group|
      invariant outcomes + OutcomesFrom(group[i..], net, skip) == OutcomesFrom(group, net, None)
    {
      OwedStep(outcomes, group, net, skip, i);
      if skip.Some? {
        outcomes := outcomes + [skip.value.(activityId := group[i].activityId)];
      } else {
        var o := Deliver(group[i], net(group[i]));
        outcomes := outcomes + [o];
        if Unavailable(o) {
          skip := Some(SkipAfter(group[i], o));
        }
      }
    }
  }

  /** The first request of a group that finds its host unavailable. */
  function FirstUnavailable(group: seq<Request>, net: Network): Option<Request> {
    if group == [] then None
    else if Unavailable(Deliver(group[0], net(group[0]))) then Some(group[0])
    else FirstUnavailable(group[1..], net)
  }

  /** What a request gets when `earlier` went to the same recipient before it: its own reply, or
      a skip that repeats the host and the retry instant of the first unavailable one. */
  function OutcomeAfter(earlier: seq<Request>, req: Request, net: Network): Outcome {
    match FirstUnavailable(earlier, net)
    case None => Deliver(req, net(req))
    case Some(bad) => SkipAfter(bad, Deliver(bad, net(bad))).(activityId := req.activityId)
  }

  lemma {:induction false} SkippedTail(group: seq<Request>, req: Request, net: Network, skip: Outcome)
    ensures OutcomesFrom(group + [req], net, Some(skip))
         == OutcomesFrom(group, net, Some(skip)) + [skip.(activityId := req.activityId)]
  {
    if group != [] {
      assert (group + [req])[1..] == group[1..] + [req];
      SkippedTail(group[1..], req, net, skip);
    } else {
      assert ([req] + [])[1..] == [];
    }
  }

  /** In a group, a request is attempted exactly when no earlier one met a host-level failure. */
  lemma {:induction false} GroupOutcomesSnoc(group: seq<Request>, req: Request, net: Network)
    ensures OutcomesFrom(group + [req], net, None)
         == OutcomesFrom(group, net, None) + [OutcomeAfter(group, req, net)]
  {
    if group == [] {
      assert group + [req] == [req];
    } else {
      assert (group + [req])[1..] == group[1..] + [req];
      var o := Deliver(group[0], net(group[0]));
      if Unavailable(o) {
        SkippedTail(group[1..], req, net, SkipAfter(group[0], o));
      } else {
        GroupOutcomesSnoc(group[1..], req, net);
      }
    }
  }

  // ---------------------------------------------------------------- grouping

  function SentTo(recipient: string): Request -> bool {
    (req: Request) => req.recipient == recipient
  }

  /** The recipients of a batch in the order of their first request. */
  function Recipients(batch: seq<Request>): seq<string> {
    if batch == [] then [] else
      var rs := Recipients(batch[..|batch| - 1]);
      var r := batch[|batch| - 1].recipient;
      if r in rs then rs else rs + [r]
  }

  function GroupsFor(rs: seq<string>, batch: seq<Request>): (groups: seq<seq<Request>>)
    ensures |groups| == |rs|
    ensures forall g :: 0 <= g < |rs| ==> groups[g] == Filter(SentTo(rs[g]), batch)
  {
    if rs == [] then [] else [Filter(SentTo(rs[0]), batch)] + GroupsFor(rs[1..], batch)
  }

  function Groups(batch: seq<Request>): seq<seq<Request>> {
    GroupsFor(Recipients(batch), batch)
  }

  lemma {:induction false} RecipientsDistinct(batch: seq<Request>)
    ensures Distinct(Recipients(batch))
  {
    if batch != [] {
      RecipientsDistinct(batch[..|batch| - 1]);
    }
  }

  lemma {:induction false} RecipientsComplete(batch: seq<Request>)
    ensures forall req <- batch :: req.recipient in Recipients(batch)
  {
    if batch != [] {
      var n := |batch| - 1;
      RecipientsComplete(batch[..n]);
      assert batch == batch[..n] + [batch[n]];
    }
  }

  /** Recipients come in the order of their first requests: one has a request before any of a later one's. */
  lemma {:induction false} RecipientsInOrder(batch: seq<Request>, i: nat, j: nat)
    requires i < j < |Recipients(batch)|
    ensures exists k ::
      && 0 <= k < |batch| && batch[k].recipient == Recipients(batch)[i]
      && forall l :: 0 <= l <= k ==> batch[l].recipient != Recipients(batch)[j]
  {
    var n := |batch| - 1;
    var rs := Recipients(batch[..n]);
    if j < |rs| {
      RecipientsInOrder(batch[..n], i, j);
      var k :| 0 <= k < n && batch[..n][k].recipient == rs[i]
        && forall l :: 0 <= l <= k ==> batch[..n][l].recipient != rs[j];
      assert forall l :: 0 <= l <= k ==> batch[..n][l] == batch[l];
    } else {
      RecipientsComplete(batch[..n]);
      assert rs[i] in rs;
      RecipientsAreUsed(batch[..n], rs[i]);
      var k :| 0 <= k < n && batch[..n][k].recipient == rs[i];
      assert forall l :: 0 <= l <= k ==> batch[l] in batch[..n];
    }
  }

  lemma {:induction false} RecipientsAreUsed(batch: seq<Request>, r: string)
    requires r in Recipients(batch)
    ensures exists k :: 0 <= k < |batch| && batch[k].recipient == r
  {
    var n := |batch| - 1;
    if r != batch[n].recipient {
      RecipientsAreUsed(batch[..n], r);
      var k :| 0 <= k < n && batch[..n][k].recipient == r;
      assert batch[k].recipient == r;
    }
  }

  ghost predicate GroupedSoFar(order: seq<string>, byRecipient: map<string, seq<Request>>, batch: seq<Request>) {
    && order == Recipients(batch)
    && (forall r :: r in byRecipient <==> r in order)
    && forall r <- byRecipient :: byRecipient[r] == Filter(SentTo(r), batch)
  }

  lemma GroupOneMore(order: seq<string>, byRecipient: map<string, seq<Request>>, batch: seq<Request>, req: Request)
    requires GroupedSoFar(order, byRecipient, batch)
    ensures var r := req.recipient;
      var group := if r in byRecipient then byRecipient[r] else [];
      GroupedSoFar(if r in byRecipient then order else order + [r], byRecipient[r := group + [req]], batch + [req])
  {
    var r := req.recipient;
    var group := if r in byRecipient then byRecipient[r] else [];
    assert (batch + [req])[..|batch|] == batch;
    assert group == Filter(SentTo(r), batch) by {
      if r !in order {
        RecipientsComplete(batch);
        FilterNothing(SentTo(r), batch);
      }
    }
    FilterSnoc(SentTo(r), batch, req);
    forall r' | r' in byRecipient && r' != r
      ensures byRecipient[r'] == Filter(SentTo(r'), batch + [req])
    {
      FilterSnoc(SentTo(r'), batch, req);
    }
  }

  /** The dictionary of groups, filled in queue order and read back in insertion order. */
  method GroupByRecipient(batch: seq<Request>) returns (groups: seq<seq<Request>>)
    ensures groups == Groups(batch)
  {
    var order: seq<string> := [];
    var byRecipient: map<string, seq<Request>> := map[];
    for n := 0 to |batch|
      invariant GroupedSoFar(order, byRecipient, batch[..n])
    {
      var req := batch[n];
      GroupOneMore(order, byRecipient, batch[..n], req);
      assert batch[..n + 1] == batch[..n] + [req];
      if req.recipient !in byRecipient {
        order := order + [req.recipient];
        byRecipient := byRecipient[req.recipient := [req]];
        assert [] + [req] == [req];
      } else {
        byRecipient := byRecipient[req.recipient := byRecipient[req.recipient] + [req]];
      }
    }
    assert batch[..|batch|] == batch;
    groups := [];
    for g := 0 to |order|
      invariant |groups| == g
      invariant forall k :: 0 <= k < g ==> groups[k] == Filter(SentTo(order[k]), batch)
    {
      groups := groups + [byRecipient[order[g]]];
    }
  }

  // ---------------------------------------------------------------- the tasks as interleaved steps

  /** Where a task stands between two requests: waiting for the global semaphore, holding it while
      waiting for its host's semaphore, or holding both while the POST is under way. */
  datatype Phase = Idle | HoldsGlobal | Delivering

  datatype Task = Task(requests: seq<Request>, outcomes: seq<Outcome>, skip: Option<Outcome>, phase: Phase) {
    predicate Finished() {
      |outcomes| >= |requests|
    }

    function Current(): Request
      requires !Finished()
    {
      requests[|outcomes|]
    }
  }

  datatype Event = Started(request: Request) | Ended(request: Request)

  datatype State = State(tasks: seq<Task>, globalFree: int, hostFree: map<string, int>, log: seq<Event>)

  /** One when the task is inside a POST to the host. */
  function BusyAt(host: string): Task -> int {
    (t: Task) => if t.phase == Delivering && !t.Finished() && t.Current().host == host then 1 else 0
  }

  function Busy(): Task -> int {
    (t: Task) => if t.phase == Delivering then 1 else 0
  }

  function Holding(): Task -> int {
    (t: Task) => if t.phase == Idle then 0 else 1
  }

  predicate Enabled(s: State, g: nat) {
    && g < |s.tasks|
    && var t := s.tasks[g];
    && !t.Finished()
    && (t.phase == Idle && t.skip == None ==> s.globalFree > 0)
    && (t.phase == HoldsGlobal ==> t.Current().host in s.hostFree && s.hostFree[t.Current().host] > 0)
    && (t.phase == Delivering ==> t.Current().host in s.hostFree)
  }

  /** One step of task g: skip a request, take a semaphore, or finish a POST and give both back. */
  function Step(s: State, g: nat, net: Network): State
    requires Enabled(s, g)
  {
    var t := s.tasks[g];
    var req := t.Current();
    match t.phase
    case Idle =>
      if t.skip.Some? then
        s.(tasks := s.tasks[g := t.(outcomes := t.outcomes + [t.skip.value.(activityId := req.activityId)])])
      else
        s.(tasks := s.tasks[g := t.(phase := HoldsGlobal)], globalFree := s.globalFree - 1)
    case HoldsGlobal =>
      s.(tasks := s.tasks[g := t.(phase := Delivering)],
         hostFree := s.hostFree[req.host := s.hostFree[req.host] - 1],
         log := s.log + [Started(req)])
    case Delivering =>
      var o := Deliver(req, net(req));
      State(s.tasks[g := Task(t.requests, t.outcomes + [o], SkipAfterDelivery(req, o), Idle)],
            s.globalFree + 1,
            s.hostFree[req.host := s.hostFree[req.host] + 1],
            s.log + [Ended(req)])
  }

  function Hosts(batch: seq<Request>): set<string> {
    set req | req in batch :: req.host
  }

  function Tasks(groups: seq<seq<Request>>): (tasks: seq<Task>)
    ensures |tasks| == |groups|
    ensures forall g :: 0 <= g < |groups| ==> tasks[g] == Task(groups[g], [], None, Idle)
  {
    if groups == [] then [] else [Task(groups[0], [], None, Idle)] + Tasks(groups[1..])
  }

  function Start(batch: seq<Request>, concurrency: int, perHost: int): State {
    State(Tasks(Groups(batch)), concurrency, map h | h in Hosts(batch) :: perHost, [])
  }

  /** An interleaving is the list of tasks in the order they are scheduled. */
  predicate Schedule(s: State, net: Network, schedule: seq<nat>)
    decreases |schedule|
  {
    schedule == [] || (Enabled(s, schedule[0]) && Schedule(Step(s, schedule[0], net), net, schedule[1..]))
  }

  function Run(s: State, net: Network, schedule: seq<nat>): State
    requires Schedule(s, net, schedule)
    decreases |schedule|
  {
    if schedule == [] then s else Run(Step(s, schedule[0], net), net, schedule[1..])
  }

  /** A run goes on step by step. */
  lemma {:induction false} OneMoreStep(s: State, net: Network, schedule: seq<nat>, g: nat)
    requires Schedule(s, net, schedule)
    ensures Schedule(s, net, schedule + [g]) <==> Enabled(Run(s, net, schedule), g)
    ensures Enabled(Run(s, net, schedule), g) ==>
      Run(s, net, schedule + [g]) == Step(Run(s, net, schedule), g, net)
    decreases |schedule|
  {
    hide Step, Enabled;
    if schedule == [] {
      assert ([] + [g])[1..] == [];
    } else {
      assert (schedule + [g])[1..] == schedule[1..] + [g];
      OneMoreStep(Step(s, schedule[0], net), net, schedule[1..], g);
    }
  }

  // ---------------------------------------------------------------- invariant

  function SentIn(recipient: string): Event -> bool {
    (e: Event) => e.request.recipient == recipient
  }

  /** A recipient's attempts so far: each POST ends before the next one starts, in queue order. */
  function Attempts(requests: seq<Request>, outcomes: seq<Outcome>): seq<Event>
    requires |outcomes| <= |requests|
  {
    if outcomes == [] then [] else
      var n := |outcomes| - 1;
      Attempts(requests, outcomes[..n])
        + if outcomes[n].result.Skipped? then [] else [Started(requests[n]), Ended(requests[n])]
  }

  /** The i-th outcome of a group so far is a host-level failure. */
  predicate FailsAt(outcomes: seq<Outcome>, i: int) {
    && 0 <= i < |outcomes|
    && outcomes[i].result in {Exception(HttpStatus(429)), Exception(HttpStatus(503)), Exception(Transport)}
  }

  /** A request so far was skipped exactly when an earlier one met a host-level failure, and from such a
      failure on the task has a skip to hand out. */
  ghost predicate SkipsAfterFailure(t: Task) {
    && (t.skip.Some? <==> exists i :: FailsAt(t.outcomes, i))
    && forall j :: 0 <= j < |t.outcomes| ==>
         (t.outcomes[j].result.Skipped? <==> exists i :: i < j && FailsAt(t.outcomes, i))
  }

  ghost predicate TaskInv(t: Task, net: Network, recipient: string) {
    && |t.outcomes| <= |t.requests|
    && (forall req <- t.requests :: req.recipient == recipient)
    && (t.phase != Idle ==> !t.Finished() && t.skip == None)
    && (t.skip.Some? ==> t.skip.value.result.Skipped?)
    && SkipsAfterFailure(t)
    && t.outcomes + OutcomesFrom(t.requests[|t.outcomes|..], net, t.skip) == OutcomesFrom(t.requests, net, None)
  }

  ghost predicate LogInv(t: Task, log: seq<Event>, recipient: string)
    requires |t.outcomes| <= |t.requests|
    requires t.phase != Idle ==> !t.Finished()
  {
    Filter(SentIn(recipient), log)
      == Attempts(t.requests, t.outcomes) + if t.phase == Delivering then [Started(t.Current())] else []
  }

  ghost predicate SemaphoreInv(s: State, concurrency: int, perHost: int) {
    && s.globalFree + Sum(Holding(), s.tasks) == concurrency
    && s.globalFree >= 0
    && forall h <- s.hostFree :: s.hostFree[h] + Sum(BusyAt(h), s.tasks) == perHost && s.hostFree[h] >= 0
  }

  ghost predicate GroupInv(t: Task, s: State, net: Network, batch: seq<Request>, recipient: string) {
    && t.requests == Filter(SentTo(recipient), batch)
    && TaskInv(t, net, recipient)
    && LogInv(t, s.log, recipient)
    && forall req <- t.requests :: req.host in s.hostFree
  }

  ghost predicate Inv(s: State, net: Network, batch: seq<Request>, concurrency: int, perHost: int) {
    && |Recipients(batch)| == |s.tasks|
    && s.hostFree.Keys == Hosts(batch)
    && (forall g :: 0 <= g < |s.tasks| ==> GroupInv(s.tasks[g], s, net, batch, Recipients(batch)[g]))
    && SemaphoreInv(s, concurrency, perHost)
  }

  lemma StartTask(group: seq<Request>, net: Network, r: string, batch: seq<Request>)
    requires group == Filter(SentTo(r), batch)
    ensures TaskInv(Task(group, [], None, Idle), net, r)
    ensures forall req <- group :: req.host in Hosts(batch)
  {
    FilterMembers(SentTo(r), batch);
    assert group[0..] == group;
  }

  lemma StartSemaphores(batch: seq<Request>, concurrency: nat, perHost: nat)
    ensures SemaphoreInv(Start(batch, concurrency, perHost), concurrency, perHost)
  {
    var tasks := Tasks(Groups(batch));
    SumZero(Holding(), tasks);
    forall h {
      SumZero(BusyAt(h), tasks);
    }
  }

  lemma StartInv(batch: seq<Request>, net: Network, concurrency: nat, perHost: nat)
    ensures Inv(Start(batch, concurrency, perHost), net, batch, concurrency, perHost)
  {
    StartSemaphores(batch, concurrency, perHost);
    forall g | 0 <= g < |Recipients(batch)|
      ensures GroupInv(Tasks(Groups(batch))[g], Start(batch, concurrency, perHost), net, batch, Recipients(batch)[g])
    {
      StartTask(Groups(batch)[g], net, Recipients(batch)[g], batch);
    }
  }

  /** One more outcome: a skip when there is one to hand out, else the request's own reply. */
  lemma SkipStep(t: Task, o: Outcome, after: Task)
    requires SkipsAfterFailure(t) && after.outcomes == t.outcomes + [o]
    requires if t.skip.Some? then o.result.Skipped? && after.skip.Some?
             else !o.result.Skipped? && (after.skip.Some? <==> Unavailable(o))
    ensures SkipsAfterFailure(after)
  {
    var n := |t.outcomes|;
    forall i | i != n
      ensures FailsAt(after.outcomes, i) <==> FailsAt(t.outcomes, i)
    {
    }
    assert FailsAt(after.outcomes, n) <==> Unavailable(o);
  }

  /** Advancing a task keeps what it has and still owes together equal to the in-order outcomes. */
  lemma TaskStep(s: State, g: nat, net: Network, r: string)
    requires Enabled(s, g) && TaskInv(s.tasks[g], net, r)
    ensures TaskInv(Step(s, g, net).tasks[g], net, r)
  {
    var t, t' := s.tasks[g], Step(s, g, net).tasks[g];
    OwedStep(t.outcomes, t.requests, net, t.skip, |t.outcomes|);
    if |t'.outcomes| > |t.outcomes| {
      SkipStep(t, t'.outcomes[|t.outcomes|], t');
    }
  }

  lemma LogStep(s: State, g: nat, net: Network, r: string)
    requires Enabled(s, g) && TaskInv(s.tasks[g], net, r) && LogInv(s.tasks[g], s.log, r)
    ensures TaskInv(Step(s, g, net).tasks[g], net, r)
    ensures LogInv(Step(s, g, net).tasks[g], Step(s, g, net).log, r)
  {
    TaskStep(s, g, net, r);
    var t, t' := s.tasks[g], Step(s, g, net).tasks[g];
    var n := |t.outcomes|;
    assert s.log + [] == s.log;
    FilterSnoc(SentIn(r), s.log, Started(t.Current()));
    FilterSnoc(SentIn(r), s.log, Ended(t.Current()));
    if |t'.outcomes| == n + 1 {
      assert t'.outcomes[..n] == t.outcomes;
      assert Attempts(t.requests, t'.outcomes) == Attempts(t.requests, t.outcomes)
        + if t'.outcomes[n].result.Skipped? then [] else [Started(t.Current()), Ended(t.Current())];
    }
  }

  /** The other tasks and the log of their recipients do not notice the step. */
  lemma LogFrame(s: State, g: nat, net: Network, r: string)
    requires Enabled(s, g) && s.tasks[g].Current().recipient != r
    ensures Filter(SentIn(r), Step(s, g, net).log) == Filter(SentIn(r), s.log)
  {
    FilterSnoc(SentIn(r), s.log, Started(s.tasks[g].Current()));
    FilterSnoc(SentIn(r), s.log, Ended(s.tasks[g].Current()));
  }

  lemma SemaphoreStep(s: State, g: nat, net: Network, r: string, concurrency: int, perHost: int)
    requires Enabled(s, g) && TaskInv(s.tasks[g], net, r) && SemaphoreInv(s, concurrency, perHost)
    ensures SemaphoreInv(Step(s, g, net), concurrency, perHost)
  {
    var s' := Step(s, g, net);
    SumUpdate(Holding(), s.tasks, g, s'.tasks[g]);
    assert s'.tasks == s.tasks[g := s'.tasks[g]];
    forall h | h in s'.hostFree
      ensures s'.hostFree[h] + Sum(BusyAt(h), s'.tasks) == perHost && s'.hostFree[h] >= 0
    {
      SumUpdate(BusyAt(h), s.tasks, g, s'.tasks[g]);
    }
  }

  /** Advancing task g keeps every task's own part of the invariant. */
  lemma GroupStep(s: State, g: nat, net: Network, batch: seq<Request>, k: nat)
    requires Enabled(s, g) && k < |s.tasks| == |Recipients(batch)|
    requires GroupInv(s.tasks[g], s, net, batch, Recipients(batch)[g])
    requires GroupInv(s.tasks[k], s, net, batch, Recipients(batch)[k])
    requires Recipients(batch)[g] != Recipients(batch)[k] || g == k
    ensures var s' := Step(s, g, net);
      |s'.tasks| == |s.tasks| && GroupInv(s'.tasks[k], s', net, batch, Recipients(batch)[k])
  {
    var rs := Recipients(batch);
    assert s.tasks[g].Current() in s.tasks[g].requests;
    if k == g {
      LogStep(s, g, net, rs[g]);
    } else {
      LogFrame(s, g, net, rs[k]);
    }
  }

  lemma StepInv(s: State, g: nat, net: Network, batch: seq<Request>, concurrency: int, perHost: int)
    requires Inv(s, net, batch, concurrency, perHost) && Enabled(s, g)
    ensures Inv(Step(s, g, net), net, batch, concurrency, perHost)
  {
    hide GroupInv, SemaphoreInv;
    RecipientsDistinct(batch);
    CurrentOfGroup(s, g, net, batch, Recipients(batch)[g]);
    SemaphoreStep(s, g, net, Recipients(batch)[g], concurrency, perHost);
    forall k | 0 <= k < |s.tasks|
      ensures GroupInv(Step(s, g, net).tasks[k], Step(s, g, net), net, batch, Recipients(batch)[k])
    {
      GroupStep(s, g, net, batch, k);
    }
  }

  lemma CurrentOfGroup(s: State, g: nat, net: Network, batch: seq<Request>, r: string)
    requires Enabled(s, g) && GroupInv(s.tasks[g], s, net, batch, r)
    ensures TaskInv(s.tasks[g], net, r)
    ensures Step(s, g, net).hostFree.Keys == s.hostFree.Keys && |Step(s, g, net).tasks| == |s.tasks|
  {
    assert s.tasks[g].Current() in s.tasks[g].requests;
  }

  lemma {:induction false} RunInv(s: State, net: Network, schedule: seq<nat>, batch: seq<Request>,
      concurrency: int, perHost: int)
    requires Schedule(s, net, schedule) && Inv(s, net, batch, concurrency, perHost)
    ensures Inv(Run(s, net, schedule), net, batch, concurrency, perHost)
    decreases |schedule|
  {
    if schedule != [] {
      StepInv(s, schedule[0], net, batch, concurrency, perHost);
      RunInv(Step(s, schedule[0], net), net, schedule[1..], batch, concurrency, perHost);
    }
  }

  // ---------------------------------------------------------------- main results

  /** A recipient's part of the log: its finished attempts and at most one open one. */
  ghost predicate OneAtATime(t: Task, log: seq<Event>, recipient: string) {
    && |t.outcomes| <= |t.requests|
    && var done := Attempts(t.requests, t.outcomes);
    && var seen := Filter(SentIn(recipient), log);
    && (seen == done || (!t.Finished() && seen == done + [Started(t.Current())]))
  }

  /** After a host-level failure the task starts no further POST, and every later request is skipped; no
      request is skipped without such a failure before it. */
  ghost predicate StopsAtFailure(t: Task) {
    && ((exists i :: FailsAt(t.outcomes, i)) ==> t.phase == Idle)
    && forall j :: 0 <= j < |t.outcomes| ==>
         (t.outcomes[j].result.Skipped? <==> exists i :: i < j && FailsAt(t.outcomes, i))
  }

  /** In every interleaving of every batch, finished or not: at most `concurrency` POSTs are under way, at
      most `perHost` of them to any one host, and each recipient's POSTs happen one at a time in queue
      order, the skipped ones not at all, and never after a host-level failure. */
  lemma SafetyOfInterleavings(batch: seq<Request>, net: Network, concurrency: nat, perHost: nat, schedule: seq<nat>)
    requires Schedule(Start(batch, concurrency, perHost), net, schedule)
    ensures var s := Run(Start(batch, concurrency, perHost), net, schedule);
      && Sum(Busy(), s.tasks) <= concurrency
      && (forall h <- Hosts(batch) :: Sum(BusyAt(h), s.tasks) <= perHost)
      && |s.tasks| == |Recipients(batch)|
      && forall g :: 0 <= g < |s.tasks| ==>
           && s.tasks[g].requests == Filter(SentTo(Recipients(batch)[g]), batch)
           && OneAtATime(s.tasks[g], s.log, Recipients(batch)[g])
           && StopsAtFailure(s.tasks[g])
  {
    var s0 := Start(batch, concurrency, perHost);
    StartInv(batch, net, concurrency, perHost);
    RunInv(s0, net, schedule, batch, concurrency, perHost);
    var s := Run(s0, net, schedule);
    SumMonotone(Busy(), Holding(), s.tasks);
    forall g | 0 <= g < |s.tasks|
      ensures s.tasks[g].requests == Filter(SentTo(Recipients(batch)[g]), batch)
      ensures OneAtATime(s.tasks[g], s.log, Recipients(batch)[g]) && StopsAtFailure(s.tasks[g])
    {
      assert GroupInv(s.tasks[g], s, net, batch, Recipients(batch)[g]);
    }
  }

  lemma PosterCanMove(s: State, net: Network, batch: seq<Request>, concurrency: int, perHost: int, g: nat)
    requires Inv(s, net, batch, concurrency, perHost)
    requires g < |s.tasks| && s.tasks[g].phase == Delivering
    ensures Enabled(s, g)
  {
    assert GroupInv(s.tasks[g], s, net, batch, Recipients(batch)[g]);
    assert s.tasks[g].Current() in s.tasks[g].requests;
  }

  /** Nobody is inside a POST, so a task that waits for its host's semaphore finds it free. */
  lemma WaiterCanMove(s: State, net: Network, batch: seq<Request>, concurrency: int, perHost: int, g: nat)
    requires Inv(s, net, batch, concurrency, perHost) && perHost >= 1
    requires g < |s.tasks| && s.tasks[g].phase == HoldsGlobal
    requires forall t <- s.tasks :: t.phase != Delivering
    ensures Enabled(s, g)
  {
    assert GroupInv(s.tasks[g], s, net, batch, Recipients(batch)[g]);
    var host := s.tasks[g].Current().host;
    SumZero(BusyAt(host), s.tasks);
  }

  /** Nobody holds the global semaphore, so a task with requests left can skip or take it. */
  lemma IdlerCanMove(s: State, net: Network, batch: seq<Request>, concurrency: int, perHost: int, g: nat)
    requires Inv(s, net, batch, concurrency, perHost) && concurrency >= 1
    requires g < |s.tasks| && !s.tasks[g].Finished()
    requires forall t <- s.tasks :: t.phase == Idle
    ensures Enabled(s, g)
  {
    SumZero(Holding(), s.tasks);
  }

  /** No reachable state is stuck: while a request is left, some task can move. */
  lemma NoDeadlock(s: State, net: Network, batch: seq<Request>, concurrency: int, perHost: int) returns (g: nat)
    requires Inv(s, net, batch, concurrency, perHost) && concurrency >= 1 && perHost >= 1
    requires !AllFinished(s.tasks)
    ensures Enabled(s, g)
  {
    hide Inv, Enabled;
    if d: nat :| d < |s.tasks| && s.tasks[d].phase == Delivering {
      g := d;
      PosterCanMove(s, net, batch, concurrency, perHost, g);
    } else {
      assert forall t <- s.tasks :: t.phase != Delivering;
      if w: nat :| w < |s.tasks| && s.tasks[w].phase == HoldsGlobal {
        g := w;
        WaiterCanMove(s, net, batch, concurrency, perHost, g);
      } else {
        g :| g < |s.tasks| && !s.tasks[g].Finished();
        IdlerCanMove(s, net, batch, concurrency, perHost, g);
      }
    }
  }

  predicate AllFinished(tasks: seq<Task>) {
    forall g :: 0 <= g < |tasks| ==> tasks[g].Finished()
  }

  /** What a task still has to do: three steps for a request it will attempt. */
  function Left(): Task -> int {
    (t: Task) => 3 * (|t.requests| - |t.outcomes|)
                 - (match t.phase case Idle => 0 case HoldsGlobal => 1 case Delivering => 2)
  }

  lemma StepLowersWork(s: State, g: nat, net: Network)
    requires Enabled(s, g)
    ensures Sum(Left(), Step(s, g, net).tasks) < Sum(Left(), s.tasks)
  {
    SumUpdate(Left(), s.tasks, g, Step(s, g, net).tasks[g]);
  }

  lemma WorkIsNatural(s: State, net: Network, batch: seq<Request>, concurrency: int, perHost: int)
    requires Inv(s, net, batch, concurrency, perHost)
    ensures Sum(Left(), s.tasks) >= 0
  {
    forall t | t in s.tasks
      ensures Left()(t) >= 0
    {
      var g :| 0 <= g < |s.tasks| && s.tasks[g] == t;
      assert GroupInv(s.tasks[g], s, net, batch, Recipients(batch)[g]);
    }
    SumNonNegative(Left(), s.tasks);
  }

  /** Every interleaving terminates: it has at most three steps per request left. */
  lemma {:induction false} RunsAreFinite(s: State, net: Network, schedule: seq<nat>, batch: seq<Request>,
      concurrency: int, perHost: int)
    requires Inv(s, net, batch, concurrency, perHost) && Schedule(s, net, schedule)
    ensures |schedule| <= Sum(Left(), s.tasks)
    decreases |schedule|
  {
    if schedule == [] {
      WorkIsNatural(s, net, batch, concurrency, perHost);
    } else {
      StepInv(s, schedule[0], net, batch, concurrency, perHost);
      StepLowersWork(s, schedule[0], net);
      RunsAreFinite(Step(s, schedule[0], net), net, schedule[1..], batch, concurrency, perHost);
    }
  }

  /** The outcomes of a batch, group after group. */
  function GroupedOutcomes(rs: seq<string>, batch: seq<Request>, net: Network): seq<Outcome> {
    if rs == [] then [] else
      OutcomesFrom(Filter(SentTo(rs[0]), batch), net, None) + GroupedOutcomes(rs[1..], batch, net)
  }

  function Collect(tasks: seq<Task>): seq<Outcome> {
    if tasks == [] then [] else tasks[0].outcomes + Collect(tasks[1..])
  }

  lemma {:induction false} CollectFinished(tasks: seq<Task>, rs: seq<string>, batch: seq<Request>, net: Network)
    requires |tasks| == |rs|
    requires forall g :: 0 <= g < |rs| ==> tasks[g].outcomes == OutcomesFrom(Filter(SentTo(rs[g]), batch), net, None)
    ensures Collect(tasks) == GroupedOutcomes(rs, batch, net)
  {
    if rs != [] {
      CollectFinished(tasks[1..], rs[1..], batch, net);
    }
  }

  /** Whatever the interleaving, a run that has nothing left to do has collected the outcomes that
      delivering each group alone and in order would have given. */
  lemma InterleavingIsConfluent(batch: seq<Request>, net: Network, concurrency: nat, perHost: nat, schedule: seq<nat>)
    requires Schedule(Start(batch, concurrency, perHost), net, schedule)
    requires AllFinished(Run(Start(batch, concurrency, perHost), net, schedule).tasks)
    ensures Collect(Run(Start(batch, concurrency, perHost), net, schedule).tasks)
         == GroupedOutcomes(Recipients(batch), batch, net)
  {
    var s0 := Start(batch, concurrency, perHost);
    StartInv(batch, net, concurrency, perHost);
    RunInv(s0, net, schedule, batch, concurrency, perHost);
    FinishedTasks(Run(s0, net, schedule), batch, net, concurrency, perHost);
  }

  lemma FinishedTasks(s: State, batch: seq<Request>, net: Network, concurrency: nat, perHost: nat)
    requires Inv(s, net, batch, concurrency, perHost) && AllFinished(s.tasks)
    ensures Collect(s.tasks) == GroupedOutcomes(Recipients(batch), batch, net)
  {
    forall g | 0 <= g < |s.tasks|
      ensures s.tasks[g].outcomes == OutcomesFrom(Filter(SentTo(Recipients(batch)[g]), batch), net, None)
    {
      var t := s.tasks[g];
      assert GroupInv(t, s, net, batch, Recipients(batch)[g]);
      assert t.requests[|t.outcomes|..] == [];
    }
    CollectFinished(s.tasks, Recipients(batch), batch, net);
  }

  /** The one-pass reading of a batch: each request gets what its own reply says, unless an earlier
      one to the same recipient found the host unavailable. */
  function Reference(batch: seq<Request>, net: Network): (r: seq<Outcome>)
    ensures |r| == |batch|
  {
    if batch == [] then [] else
      var n := |batch| - 1;
      Reference(batch[..n], net)
        + [OutcomeAfter(Filter(SentTo(batch[n].recipient), batch[..n]), batch[n], net)]
  }

  lemma {:induction false} GroupedFrame(rs: seq<string>, batch: seq<Request>, req: Request, net: Network)
    requires req.recipient !in rs
    ensures GroupedOutcomes(rs, batch + [req], net) == GroupedOutcomes(rs, batch, net)
  {
    if rs != [] {
      FilterSnoc(SentTo(rs[0]), batch, req);
      GroupedFrame(rs[1..], batch, req, net);
    }
  }

  lemma InsertMiddle(a: seq<Outcome>, o: Outcome, b: seq<Outcome>)
    ensures multiset((a + [o]) + b) == multiset(a + b) + multiset{o}
  {
  }

  /** A request added to the queue adds one outcome, the one decided by the earlier requests of its group. */
  lemma {:induction false} GroupedSnoc(rs: seq<string>, batch: seq<Request>, req: Request, net: Network)
    requires Distinct(rs) && req.recipient in rs
    ensures multiset(GroupedOutcomes(rs, batch + [req], net))
         == multiset(GroupedOutcomes(rs, batch, net))
          + multiset{OutcomeAfter(Filter(SentTo(req.recipient), batch), req, net)}
  {
    var group := Filter(SentTo(rs[0]), batch);
    var first := OutcomesFrom(group, net, None);
    FilterSnoc(SentTo(rs[0]), batch, req);
    if rs[0] == req.recipient {
      GroupOutcomesSnoc(group, req, net);
      GroupedFrame(rs[1..], batch, req, net);
      InsertMiddle(first, OutcomeAfter(group, req, net), GroupedOutcomes(rs[1..], batch, net));
    } else {
      GroupedSnoc(rs[1..], batch, req, net);
    }
  }

  lemma {:induction false} GroupedNew(rs: seq<string>, r: string, batch: seq<Request>, net: Network)
    ensures GroupedOutcomes(rs + [r], batch, net)
         == GroupedOutcomes(rs, batch, net) + OutcomesFrom(Filter(SentTo(r), batch), net, None)
  {
    if rs == [] {
      assert rs + [r] == [r];
    } else {
      assert (rs + [r])[1..] == rs[1..] + [r];
      GroupedNew(rs[1..], r, batch, net);
    }
  }

  lemma GroupedStep(init: seq<Request>, req: Request, net: Network)
    ensures multiset(GroupedOutcomes(Recipients(init + [req]), init + [req], net))
         == multiset(GroupedOutcomes(Recipients(init), init, net))
          + multiset{OutcomeAfter(Filter(SentTo(req.recipient), init), req, net)}
  {
    var rs, r := Recipients(init), req.recipient;
    assert (init + [req])[..|init|] == init;
    RecipientsDistinct(init);
    if r in rs {
      GroupedSnoc(rs, init, req, net);
    } else {
      RecipientsComplete(init);
      FilterNothing(SentTo(r), init);
      FilterSnoc(SentTo(r), init, req);
      GroupOutcomesSnoc([], req, net);
      assert [] + [req] == [req];
      GroupedNew(rs, r, init + [req], net);
      GroupedFrame(rs, init, req, net);
    }
  }

  /** The grouped outcomes are a permutation of the one-pass ones: exactly one per request. */
  lemma {:induction false} ExactlyOneOutcomePerRequest(batch: seq<Request>, net: Network)
    ensures multiset(GroupedOutcomes(Recipients(batch), batch, net)) == multiset(Reference(batch, net))
  {
    if batch != [] {
      var n := |batch| - 1;
      assert batch == batch[..n] + [batch[n]];
      ExactlyOneOutcomePerRequest(batch[..n], net);
      GroupedStep(batch[..n], batch[n], net);
    }
  }

  lemma {:induction false} ReferenceIds(batch: seq<Request>, net: Network)
    ensures forall i :: 0 <= i < |batch| ==> Reference(batch, net)[i].activityId == batch[i].activityId
  {
    if batch != [] {
      ReferenceIds(batch[..|batch| - 1], net);
    }
  }

  /** The host asks for a pause, or could not be reached at all. */
  predicate HostDown(reply: Reply) {
    reply.Failed? && reply.exc in {HttpStatus(429), HttpStatus(503), Transport}
  }

  lemma UnavailableIff(req: Request, reply: Reply)
    ensures Unavailable(Deliver(req, reply)) <==> HostDown(reply)
  {
  }

  /** Request j of the batch would keep a later request i from being attempted. */
  predicate Blocks(batch: seq<Request>, net: Network, j: int, i: int) {
    0 <= j < i < |batch| && batch[j].recipient == batch[i].recipient && HostDown(net(batch[j]))
  }

  lemma BlockedIff(batch: seq<Request>, net: Network, i: nat)
    requires i < |batch|
    ensures FirstUnavailable(Filter(SentTo(batch[i].recipient), batch[..i]), net).Some?
      <==> exists j :: Blocks(batch, net, j, i)
  {
    hide Deliver, FirstUnavailable, Filter;
    var earlier := Filter(SentTo(batch[i].recipient), batch[..i]);
    FirstUnavailableIff(earlier, net);
    FilterMembers(SentTo(batch[i].recipient), batch[..i]);
    assert forall j :: 0 <= j < i && batch[j].recipient == batch[i].recipient ==> batch[j] in earlier by {
      assert forall j :: 0 <= j < i ==> batch[j] in batch[..i];
    }
    if FirstUnavailable(earlier, net).Some? {
      var bad := FirstUnavailable(earlier, net).value;
      var j :| 0 <= j < i && batch[..i][j] == bad;
      assert Blocks(batch, net, j, i);
    }
  }

  /** A request of the batch is attempted exactly when no earlier one to the same recipient found the host
      down. Then its outcome is its own reply: the status, or the exception, with the retry instant of a 429 or
      503 and none otherwise. */
  lemma AttemptedIff(batch: seq<Request>, net: Network, i: nat)
    requires i < |batch|
    ensures var o, reply := Reference(batch, net)[i], net(batch[i]);
      && o.activityId == batch[i].activityId
      && (o.result.Skipped? <==> exists j :: Blocks(batch, net, j, i))
      && (!o.result.Skipped? ==>
            && o.result == (if reply.Success? then Response(reply.status) else Exception(reply.exc))
            && o.retryAfter == if reply.Failed? && reply.exc in {HttpStatus(429), HttpStatus(503)}
                               then reply.retryAfter else None)
  {
    hide Reference, FirstUnavailable, Filter, Blocks;
    ReferenceAt(batch, net, i);
    BlockedIff(batch, net, i);
  }

  lemma {:induction false} FirstUnavailableConcat(a: seq<Request>, b: seq<Request>, net: Network)
    ensures FirstUnavailable(a + b, net)
      == if FirstUnavailable(a, net).Some? then FirstUnavailable(a, net) else FirstUnavailable(b, net)
  {
    if a == [] {
      assert a + b == b;
    } else {
      assert (a + b)[1..] == a[1..] + b;
      FirstUnavailableConcat(a[1..], b, net);
    }
  }

  /** When request i is the first one to its recipient that finds the host down, every later one to that
      recipient is skipped: under its own id, for i's host, until the instant i's reply asked to wait for. */
  lemma SkippedFor(batch: seq<Request>, net: Network, i: nat, j: nat)
    requires Blocks(batch, net, i, j) && !exists k :: Blocks(batch, net, k, i)
    ensures var reply := net(batch[i]);
      Reference(batch, net)[j] == Outcome(batch[j].activityId, Skipped(batch[i].host),
                                          if reply.exc == Transport then None else reply.retryAfter)
  {
    hide Reference, Filter;
    var p := SentTo(batch[i].recipient);
    var before, after := batch[..i], batch[i + 1..j];
    assert batch[..j] == before + ([batch[i]] + after);
    FilterConcat(p, before, [batch[i]] + after);
    FilterConcat(p, [batch[i]], after);
    FilterMembers(p, [batch[i]]);
    FilterEverything(p, [batch[i]]);
    BlockedIff(batch, net, i);
    FirstUnavailableConcat(Filter(p, before), [batch[i]] + Filter(p, after), net);
    ReferenceAt(batch, net, j);
  }

  /** The outcomes of a group, which goes to one recipient, are those of a batch that holds nothing else. */
  lemma {:induction false} GroupIsABatch(group: seq<Request>, net: Network, recipient: string)
    requires forall req <- group :: req.recipient == recipient
    ensures OutcomesFrom(group, net, None) == Reference(group, net)
  {
    if group != [] {
      var n := |group| - 1;
      assert group == group[..n] + [group[n]];
      GroupIsABatch(group[..n], net, recipient);
      GroupOutcomesSnoc(group[..n], group[n], net);
      FilterEverything(SentTo(recipient), group[..n]);
    }
  }

  lemma {:induction false} ReferenceAt(batch: seq<Request>, net: Network, i: nat)
    requires i < |batch|
    ensures Reference(batch, net)[i]
         == OutcomeAfter(Filter(SentTo(batch[i].recipient), batch[..i]), batch[i], net)
  {
    var n := |batch| - 1;
    if i < n {
      ReferenceAt(batch[..n], net, i);
      assert batch[..n][..i] == batch[..i];
    }
  }

  lemma {:induction false} FirstUnavailableIff(group: seq<Request>, net: Network)
    ensures FirstUnavailable(group, net) == None ==> forall req <- group :: !HostDown(net(req))
    ensures FirstUnavailable(group, net).Some? ==>
      var bad := FirstUnavailable(group, net).value; bad in group && HostDown(net(bad))
  {
    if group != [] {
      FirstUnavailableIff(group[1..], net);
    }
  }

  /** Runs the tasks under an arbitrary scheduler until none has anything left to do. */
  method DeliverBatch(batch: seq<Request>, net: Network, concurrency: nat, perHost: nat)
    returns (outcomes: seq<Outcome>)
    requires concurrency >= 1 && perHost >= 1
    ensures outcomes == GroupedOutcomes(Recipients(batch), batch, net)
  {
    var groups := GroupByRecipient(batch);
    var s := State(Tasks(groups), concurrency, map h | h in Hosts(batch) :: perHost, []);
    StartInv(batch, net, concurrency, perHost);
    while !AllFinished(s.tasks)
      invariant Inv(s, net, batch, concurrency, perHost)
      decreases Sum(Left(), s.tasks)
    {
      s := Advance(s, net, batch, concurrency, perHost);
    }
    FinishedTasks(s, batch, net, concurrency, perHost);
    outcomes := Collect(s.tasks);
  }

  /** One scheduling decision: any task that can move does. */
  method Advance(s: State, net: Network, ghost batch: seq<Request>, ghost concurrency: nat, ghost perHost: nat)
    returns (s': State)
    requires Inv(s, net, batch, concurrency, perHost) && !AllFinished(s.tasks)
    requires concurrency >= 1 && perHost >= 1
    ensures Inv(s', net, batch, concurrency, perHost)
    ensures 0 <= Sum(Left(), s'.tasks) < Sum(Left(), s.tasks)
  {
    ghost var mover := NoDeadlock(s, net, batch, concurrency, perHost);
    var g: nat :| g < |s.tasks| && Enabled(s, g);
    StepInv(s, g, net, batch, concurrency, perHost);
    StepLowersWork(s, g, net);
    s' := Step(s, g, net);
    WorkIsNatural(s', net, batch, concurrency, perHost);
  }
}
