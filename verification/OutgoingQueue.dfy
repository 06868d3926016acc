/** The queue rows of outgoing activities: the retry ladder, one batch, and runs of batches. */
module OutgoingQueue {
  import opened Base
  import opened Delivery

  const MAX_RETRIES := 16
  const MAX_INCOMING_RETRIES := 8

  /** Instants are counted in microseconds, the resolution of the clock. */
  const SECOND := 1_000_000

  /** The scheduling columns of a queue row. */
  datatype Row = Row(
    tries: int,
    lastTry: Option<int>,
    nextTry: Option<int>,
    isSent: bool,
    isErrored: bool,
    lastStatusCode: Option<int>)
  {
    predicate Settled() {
      isSent || isErrored
    }
  }

  /** The clock: any reading at or after the last one. */
  method Now(last: int) returns (reading: int)
    ensures last <= reading
  {
    var passed :| passed >= 0;
    reading := last + passed;
  }

  class OutgoingActivity {
    const id: int
    const recipient: string
    const host: string
    var tries: int
    var lastTry: Option<int>
    var nextTry: Option<int>
    var isSent: bool
    var isErrored: bool
    var lastStatusCode: Option<int>

    function View(): Row
      reads this
    {
      Row(tries, lastTry, nextTry, isSent, isErrored, lastStatusCode)
    }
  }

  // ---------------------------------------------------------------- the retry ladder

  /** The wait after the given attempt: two seconds, doubled by each further attempt. */
  function BackoffDelay(tries: int): int
    requires tries >= 1
  {
    2 * Pow2(tries - 1) * SECOND
  }

  function Scheduled(row: Row, maxRetries: int, nextTry: Option<int>, now: int): Row
    requires row.tries >= 1
  {
    if row.tries >= maxRetries then
      row.(isErrored := true, nextTry := None)
    else
      row.(nextTry := if nextTry.Some? then nextTry else Some(now + BackoffDelay(row.tries)))
  }

  /** Schedules the next attempt of a queued activity, giving up past maxRetries; it is an error
      to schedule one that was never tried. */
  method SetNextTry(activity: OutgoingActivity, maxRetries: int, nextTry: Option<int>, last: int)
    returns (clock: int)
    requires activity.tries >= 1
    modifies activity
    ensures last <= clock
    ensures activity.View() == Scheduled(old(activity.View()), maxRetries, nextTry, clock)
  {
    clock := last;
    if activity.tries >= maxRetries {
      activity.isErrored := true;
      activity.nextTry := None;
    } else if nextTry.Some? {
      activity.nextTry := nextTry;
    } else {
      clock := Now(last);
      activity.nextTry := Some(clock + BackoffDelay(activity.tries));
    }
  }

  /** The waits scheduled from an attempt on until the activity is given up. */
  function RemainingDelay(tries: int, maxRetries: int): int
    requires tries >= 1
    decreases maxRetries - tries
  {
    var row := Scheduled(Row(tries, None, None, false, false, None), maxRetries, None, 0);
    if row.isErrored then 0 else row.nextTry.value + RemainingDelay(tries + 1, maxRetries)
  }

  /** Without `Retry-After`, the waits before giving up after N attempts add up to 2^N - 2 seconds
      (65534 for the outgoing queue, 254 for the incoming one), and each wait is twice the last. */
  lemma {:induction false} BackoffBudget(tries: nat, maxRetries: nat)
    requires 1 <= tries <= maxRetries
    ensures RemainingDelay(tries, maxRetries) == (Pow2(maxRetries) - Pow2(tries)) * SECOND
    ensures BackoffDelay(tries + 1) == 2 * BackoffDelay(tries) > 0
    decreases maxRetries - tries
  {
    if tries < maxRetries {
      BackoffBudget(tries + 1, maxRetries);
    }
  }

  lemma BackoffBudgets()
    ensures RemainingDelay(1, MAX_RETRIES) == 65534 * SECOND
    ensures RemainingDelay(1, MAX_INCOMING_RETRIES) == 254 * SECOND
  {
    BackoffBudget(1, MAX_RETRIES);
    BackoffBudget(1, MAX_INCOMING_RETRIES);
    assert Pow2(8) == 256;
    assert Pow2(16) == 256 * Pow2(8);
  }

  // ---------------------------------------------------------------- one outcome

  function Applied(row: Row, outcome: Outcome, now: int): Row
    requires row.tries >= 1
  {
    match outcome.result
    case Skipped(_) => Scheduled(row, MAX_RETRIES, outcome.retryAfter, now)
    case Exception(HttpStatus(code)) =>
      var noted := row.(lastStatusCode := Some(code));
      if code == 429 || code == 503 then Scheduled(noted, MAX_RETRIES, outcome.retryAfter, now)
      else if code == 401 then Scheduled(noted, MAX_RETRIES, None, now)
      else if 400 <= code < 500 then noted.(isErrored := true, nextTry := None)
      else Scheduled(noted, MAX_RETRIES, None, now)
    case Exception(_) => Scheduled(row, MAX_RETRIES, None, now)
    case Response(status) => row.(isSent := true, lastStatusCode := Some(status))
  }

  /** An answer that says the very same request will never be accepted. */
  predicate Permanent(outcome: Outcome) {
    && outcome.result.Exception?
    && outcome.result.exc.HttpStatus?
    && 400 <= outcome.result.exc.code < 500
    && outcome.result.exc.code !in {401, 429}
  }

  /** The host asked for a pause, or was skipped because it had. */
  predicate HostPaused(outcome: Outcome) {
    || outcome.result.Skipped?
    || (outcome.result.Exception? && outcome.result.exc.HttpStatus? && outcome.result.exc.code in {429, 503})
  }

  /** An outcome gives an open row up exactly when it is permanent or came with the last try; otherwise a
      failure waits as long as a pausing host asked, or its backoff. */
  lemma GivesUpIff(row: Row, outcome: Outcome, now: int)
    requires row.tries >= 1 && !row.Settled()
    ensures var after := Applied(row, outcome, now);
      && (after.isErrored <==> Permanent(outcome) || (!outcome.result.Response? && row.tries >= MAX_RETRIES))
      && (after.isErrored ==> after.nextTry == None)
      && (!after.Settled() && HostPaused(outcome) && outcome.retryAfter.Some? ==> after.nextTry == outcome.retryAfter)
      && (!after.Settled() && !(HostPaused(outcome) && outcome.retryAfter.Some?) ==>
            after.nextTry == Some(now + BackoffDelay(row.tries)))
  {
  }

  method ApplyDeliveryOutcome(activity: OutgoingActivity, outcome: Outcome, last: int) returns (clock: int)
    requires activity.tries >= 1
    modifies activity
    ensures last <= clock
    ensures activity.View() == Applied(old(activity.View()), outcome, clock)
  {
    clock := last;
    match outcome.result
    case Skipped(_) =>
      clock := SetNextTry(activity, MAX_RETRIES, outcome.retryAfter, last);
    case Exception(exc) =>
      match exc {
        case HttpStatus(code) =>
          activity.lastStatusCode := Some(code);
          if code == 429 || code == 503 {
            clock := SetNextTry(activity, MAX_RETRIES, outcome.retryAfter, last);
          } else if code == 401 {
            clock := SetNextTry(activity, MAX_RETRIES, None, last);
          } else if 400 <= code < 500 {
            activity.isErrored := true;
            activity.nextTry := None;
          } else {
            clock := SetNextTry(activity, MAX_RETRIES, None, last);
          }
        case _ =>
          clock := SetNextTry(activity, MAX_RETRIES, None, last);
      }
    case Response(status) =>
      activity.isSent := true;
      activity.lastStatusCode := Some(status);
  }

  // ---------------------------------------------------------------- one row through one batch

  /** The clock readings a batch makes for one row. */
  datatype Readings = Readings(prepare: int, apply: int, check: int, force: int) {
    predicate Within(from: int, to: int) {
      from <= prepare <= apply <= check <= force <= to
    }
  }

  function Prepared(row: Row, now: int): Row {
    row.(tries := row.tries + 1, lastTry := Some(now))
  }

  /** The row made no progress: the next poll would fetch it again at once. */
  predicate Stalled(row: Row, now: int) {
    !row.isSent && !row.isErrored && (row.nextTry == None || row.nextTry.value <= now)
  }

  function Swept(row: Row, check: int, force: int): Row
    requires row.tries >= 1
  {
    if Stalled(row, check) then Scheduled(row, MAX_RETRIES, None, force) else row
  }

  function AfterBatch(row: Row, outcome: Outcome, at: Readings): Row
    requires row.tries >= 0
  {
    Swept(Applied(Prepared(row, at.prepare), outcome, at.apply), at.check, at.force)
  }

  /** The where-clause of the fetch. */
  predicate Due(row: Row, now: int) {
    row.nextTry.Some? && row.nextTry.value <= now && !row.isErrored && !row.isSent
  }

  /** One attempt was used; the row left the batch sent, errored or with a next try after the sweep
      looked at it, never both sent and errored, and it can only be left open below 16 tries. */
  lemma RowLeavesBatch(row: Row, outcome: Outcome, at: Readings)
    requires row.tries >= 0 && Due(row, at.prepare)
    requires at.Within(at.prepare, at.force)
    ensures var row' := AfterBatch(row, outcome, at);
      && row'.tries == row.tries + 1
      && (row'.Settled() || (row'.nextTry.Some? && row'.nextTry.value > at.check))
      && !(row'.isSent && row'.isErrored)
      && (row'.isSent <==> outcome.result.Response?)
      && (!row'.Settled() ==> row'.tries < MAX_RETRIES)
      && (!outcome.result.Response? && row.tries + 1 >= MAX_RETRIES ==> row'.isErrored)
      && !Due(row', at.check)
  {
  }

  /** The sweep changes a row exactly when the row is still open and its next try has already come.
      Without a `Retry-After` value that takes a clock that moved at least the whole wait between the
      outcome and the sweep, so it never happens within two seconds of it. */
  lemma SweepFiresIff(row: Row, outcome: Outcome, at: Readings)
    requires row.tries >= 0 && Due(row, at.prepare)
    requires at.Within(at.prepare, at.force)
    ensures var applied := Applied(Prepared(row, at.prepare), outcome, at.apply);
      && (AfterBatch(row, outcome, at) != applied <==>
            !applied.Settled() && applied.nextTry.value <= at.check)
      && (outcome.retryAfter == None && AfterBatch(row, outcome, at) != applied ==>
            at.check >= at.apply + BackoffDelay(row.tries + 1) >= at.apply + 2 * SECOND)
  {
    var applied := Applied(Prepared(row, at.prepare), outcome, at.apply);
    if !applied.Settled() && applied.nextTry.value <= at.check {
      assert AfterBatch(row, outcome, at).nextTry.value >= at.force + BackoffDelay(row.tries + 1);
    }
  }

  /** Where a batch takes a row, column by column: its n-th attempt is counted and stamped; it is sent, or given
      up by a client error or the sixteenth failure, or waits: for the instant a paused host asked for if that
      is still to come when the sweep looks, else for 2^n seconds from the outcome, or from the sweep. */
  lemma RowAfterBatch(row: Row, outcome: Outcome, at: Readings)
    requires row.tries >= 0 && !row.isSent && !row.isErrored && at.Within(at.prepare, at.force)
    ensures var after, n := AfterBatch(row, outcome, at), row.tries + 1;
      var wait := Pow2(n) * 1_000_000;
      var asked := HostPaused(outcome) && outcome.retryAfter.Some?;
      var due := if asked then outcome.retryAfter.value else at.apply + wait;
      && after.tries == n && after.lastTry == Some(at.prepare)
      && (after.isSent <==> outcome.result.Response?)
      && (after.isErrored <==> Permanent(outcome) || (!outcome.result.Response? && n >= 16))
      && after.lastStatusCode == (match outcome.result
                                  case Response(status) => Some(status)
                                  case Exception(HttpStatus(code)) => Some(code)
                                  case _ => row.lastStatusCode)
      && after.nextTry == if after.isSent then row.nextTry
                          else if after.isErrored then None
                          else Some(if due > at.check then due else at.force + wait)
  {
  }

  // ---------------------------------------------------------------- one batch

  /** The activities of a batch are different rows with different ids. */
  ghost predicate Separate(activities: seq<OutgoingActivity>) {
    && Distinct(activities)
    && forall i, j :: 0 <= i < j < |activities| ==> activities[i].id != activities[j].id
  }

  function Views(activities: seq<OutgoingActivity>): (rows: seq<Row>)
    reads activities
    ensures |rows| == |activities|
    ensures forall k :: 0 <= k < |rows| ==> rows[k] == activities[k].View()
  {
    seq(|activities|, k requires 0 <= k < |activities| reads activities => activities[k].View())
  }

  predicate TriedAtLeast(rows: seq<Row>, n: int) {
    forall k :: 0 <= k < |rows| ==> rows[k].tries >= n
  }

  /** The delivery requests of the activities, as _build_delivery_request makes them. */
  function Requests(activities: seq<OutgoingActivity>): (requests: seq<Request>)
    ensures |requests| == |activities|
    ensures forall k :: 0 <= k < |activities| ==>
      requests[k] == Request(activities[k].id, activities[k].recipient, activities[k].host)
  {
    seq(|activities|, k requires 0 <= k < |activities| =>
      Request(activities[k].id, activities[k].recipient, activities[k].host))
  }

  /** The requests that could be prepared; buildErrors has the exceptions of the others. */
  function Buildable(buildErrors: map<int, Failure>): Request -> bool {
    (req: Request) => req.activityId !in buildErrors
  }

  /** What the queue should make of a request that comes after `earlier`: the preparation error if
      there was one, else what the earlier prepared requests to its recipient and its own reply
      lead to. */
  function ExpectedAfter(earlier: seq<Request>, req: Request, buildErrors: map<int, Failure>, net: Network): Outcome {
    if req.activityId in buildErrors then
      Outcome(req.activityId, Exception(buildErrors[req.activityId]), None)
    else
      OutcomeAfter(Filter(SentTo(req.recipient), Filter(Buildable(buildErrors), earlier)), req, net)
  }

  function AllExpected(requests: seq<Request>, buildErrors: map<int, Failure>, net: Network): (es: seq<Outcome>)
    ensures |es| == |requests|
  {
    if requests == [] then [] else
      var n := |requests| - 1;
      AllExpected(requests[..n], buildErrors, net) + [ExpectedAfter(requests[..n], requests[n], buildErrors, net)]
  }

  lemma {:induction false} ExpectedAt(requests: seq<Request>, buildErrors: map<int, Failure>, net: Network, k: nat)
    requires k < |requests|
    ensures AllExpected(requests, buildErrors, net)[k]
         == ExpectedAfter(requests[..k], requests[k], buildErrors, net)
  {
    var n := |requests| - 1;
    if k < n {
      ExpectedAt(requests[..n], buildErrors, net, k);
      assert requests[..n][..k] == requests[..k];
    }
  }

  /** The outcomes of the requests that could not be prepared. */
  function BuildOutcomes(requests: seq<Request>, buildErrors: map<int, Failure>): seq<Outcome> {
    if requests == [] then [] else
      var n := |requests| - 1;
      var id := requests[n].activityId;
      if id in buildErrors
      then BuildOutcomes(requests[..n], buildErrors) + [Outcome(id, Exception(buildErrors[id]), None)]
      else BuildOutcomes(requests[..n], buildErrors)
  }

  lemma PrepareOne(rs: seq<Request>, buildErrors: map<int, Failure>, n: nat)
    requires n < |rs|
    ensures Filter(Buildable(buildErrors), rs[..n + 1])
         == if rs[n].activityId in buildErrors then Filter(Buildable(buildErrors), rs[..n])
            else Filter(Buildable(buildErrors), rs[..n]) + [rs[n]]
    ensures BuildOutcomes(rs[..n + 1], buildErrors)
         == if rs[n].activityId in buildErrors
            then BuildOutcomes(rs[..n], buildErrors)
               + [Outcome(rs[n].activityId, Exception(buildErrors[rs[n].activityId]), None)]
            else BuildOutcomes(rs[..n], buildErrors)
  {
    assert rs[..n + 1] == rs[..n] + [rs[n]] && rs[..n + 1][..n] == rs[..n];
    FilterSnoc(Buildable(buildErrors), rs[..n], rs[n]);
  }

  lemma ReferenceSnoc(built: seq<Request>, req: Request, net: Network)
    ensures Reference(built + [req], net)
         == Reference(built, net) + [OutcomeAfter(Filter(SentTo(req.recipient), built), req, net)]
  {
    assert (built + [req])[..|built|] == built;
  }

  lemma AddOne(b: seq<Outcome>, r: seq<Outcome>, e: seq<Outcome>, o: Outcome)
    requires multiset(b) + multiset(r) == multiset(e)
    ensures multiset(b + [o]) + multiset(r) == multiset(e + [o]) == multiset(b) + multiset(r + [o])
  {
    MultisetSnoc(b, o);
    MultisetSnoc(r, o);
    MultisetSnoc(e, o);
  }

  /** Preparation errors and delivery outcomes together are the expected ones, each exactly once. */
  lemma {:induction false} OutcomesAsExpected(requests: seq<Request>, buildErrors: map<int, Failure>, net: Network)
    ensures multiset(BuildOutcomes(requests, buildErrors))
          + multiset(Reference(Filter(Buildable(buildErrors), requests), net))
         == multiset(AllExpected(requests, buildErrors, net))
  {
    if requests != [] {
      var n := |requests| - 1;
      var init, req := requests[..n], requests[n];
      var built := Filter(Buildable(buildErrors), init);
      OutcomesAsExpected(init, buildErrors, net);
      assert requests[..n + 1] == requests;
      PrepareOne(requests, buildErrors, n);
      AddOne(BuildOutcomes(init, buildErrors), Reference(built, net), AllExpected(init, buildErrors, net),
             ExpectedAfter(init, req, buildErrors, net));
      if req.activityId !in buildErrors {
        ReferenceSnoc(built, req, net);
      }
    }
  }

  /** One row of the prepare phase: an attempt is used up whether or not the request can be built. */
  method StartAttempt(activity: OutgoingActivity, last: int) returns (clock: int)
    modifies activity
    ensures last <= clock
    ensures activity.View() == Prepared(old(activity.View()), clock)
  {
    activity.tries := activity.tries + 1;
    clock := Now(last);
    activity.lastTry := Some(clock);
  }

  /** Every row moved by its own reading of the clock. */
  ghost predicate AllPrepared(before: seq<Row>, after: seq<Row>, at: seq<int>, n: nat) {
    && |before| == |after| && |at| == n <= |after|
    && (forall k :: 0 <= k < n ==> after[k] == Prepared(before[k], at[k]))
    && forall k :: n <= k < |after| ==> after[k] == before[k]
  }

  ghost predicate Between(from: int, at: seq<int>, to: int) {
    from <= to && forall k :: 0 <= k < |at| ==> from <= at[k] <= to
  }

  method PrepareRow(activities: seq<OutgoingActivity>, n: nat, last: int) returns (clock: int)
    requires Separate(activities) && n < |activities|
    modifies activities[n]
    ensures last <= clock
    ensures Views(activities) == old(Views(activities))[n := Prepared(old(Views(activities))[n], clock)]
  {
    clock := StartAttempt(activities[n], last);
  }

  lemma NothingBuilt(rs: seq<Request>, buildErrors: map<int, Failure>)
    ensures Filter(Buildable(buildErrors), rs[..0]) == [] && BuildOutcomes(rs[..0], buildErrors) == []
  {
  }

  method Prepare(activities: seq<OutgoingActivity>, buildErrors: map<int, Failure>, last: int)
    returns (requests: seq<Request>, outcomes: seq<Outcome>, clock: int, ghost at: seq<int>)
    requires Separate(activities)
    modifies activities
    ensures requests == Filter(Buildable(buildErrors), Requests(activities))
    ensures outcomes == BuildOutcomes(Requests(activities), buildErrors)
    ensures Between(last, at, clock)
    ensures AllPrepared(old(Views(activities)), Views(activities), at, |activities|)
  {
    hide Prepared, Filter, BuildOutcomes;
    requests, outcomes, clock, at := [], [], last, [];
    ghost var rs := Requests(activities);
    NothingBuilt(rs, buildErrors);
    for n := 0 to |activities|
      invariant requests == Filter(Buildable(buildErrors), rs[..n])
      invariant outcomes == BuildOutcomes(rs[..n], buildErrors)
      invariant Between(last, at, clock)
      invariant AllPrepared(old(Views(activities)), Views(activities), at, n)
    {
      clock := PrepareRow(activities, n, clock);
      at := at + [clock];
      PrepareOne(rs, buildErrors, n);
      var a := activities[n];
      if a.id in buildErrors {
        outcomes := outcomes + [Outcome(a.id, Exception(buildErrors[a.id]), None)];
      } else {
        requests := requests + [Request(a.id, a.recipient, a.host)];
      }
    }
    assert rs[..|activities|] == rs;
  }

  /** The activities dictionary: the position of the activity an outcome belongs to. */
  function Position(activities: seq<OutgoingActivity>, id: int): (k: nat)
    requires exists a :: a in activities && a.id == id
    ensures k < |activities| && activities[k].id == id
  {
    if activities[0].id == id then 0 else
      assert exists a :: a in activities[1..] && a.id == id;
      1 + Position(activities[1..], id)
  }

  /** A row after the outcomes in `done`: untouched until its own outcome has been applied. */
  ghost predicate Progress(before: Row, now: Row, expected: Outcome, done: seq<Outcome>, at: int)
    requires before.tries >= 1
  {
    now == if expected in done then Applied(before, expected, at) else before
  }

  ghost predicate AllProgress(before: seq<Row>, now: seq<Row>, expected: seq<Outcome>, done: seq<Outcome>, at: seq<int>)
    requires TriedAtLeast(before, 1)
  {
    && |before| == |now| == |expected| == |at|
    && forall k :: 0 <= k < |before| ==> Progress(before[k], now[k], expected[k], done, at[k])
  }

  lemma ProgressStep(before: seq<Row>, now: seq<Row>, expected: seq<Outcome>, done: seq<Outcome>, at: seq<int>,
      p: nat, clock: int)
    requires TriedAtLeast(before, 1) && AllProgress(before, now, expected, done, at)
    requires p < |before| && expected[p] !in done
    requires forall i, j :: 0 <= i < j < |expected| ==> expected[i] != expected[j]
    ensures now[p] == before[p]
    ensures AllProgress(before, now[p := Applied(before[p], expected[p], clock)], expected, done + [expected[p]],
                        at[p := clock])
  {
    assert Progress(before[p], now[p], expected[p], done, at[p]);
    var now' := now[p := Applied(before[p], expected[p], clock)];
    forall k | 0 <= k < |before|
      ensures Progress(before[k], now'[k], expected[k], done + [expected[p]], at[p := clock][k])
    {
      assert Progress(before[k], now[k], expected[k], done, at[k]);
    }
  }

  method ApplyTo(activities: seq<OutgoingActivity>, p: nat, o: Outcome, last: int) returns (clock: int)
    requires Separate(activities) && p < |activities| && activities[p].tries >= 1
    modifies activities[p]
    ensures last <= clock
    ensures Views(activities) == old(Views(activities))[p := Applied(old(activities[p].View()), o, clock)]
  {
    clock := ApplyDeliveryOutcome(activities[p], o, last);
  }

  /** The activity an outcome is for is the one that expects it. */
  lemma PositionOf(activities: seq<OutgoingActivity>, expected: seq<Outcome>, o: Outcome)
    requires Separate(activities)
    requires |expected| == |activities| && o in expected
    requires forall k :: 0 <= k < |activities| ==> expected[k].activityId == activities[k].id
    ensures exists a :: a in activities && a.id == o.activityId
    ensures expected[Position(activities, o.activityId)] == o
  {
    var e :| 0 <= e < |expected| && expected[e] == o;
    assert activities[e] in activities;
    var p := Position(activities, o.activityId);
    assert activities[p].id == activities[e].id;
  }

  method ApplyOutcomes(activities: seq<OutgoingActivity>, outcomes: seq<Outcome>, last: int,
      ghost expected: seq<Outcome>)
    returns (clock: int, ghost at: seq<int>)
    requires Separate(activities) && TriedAtLeast(Views(activities), 1)
    requires |expected| == |activities| && multiset(outcomes) == multiset(expected)
    requires forall k :: 0 <= k < |activities| ==> expected[k].activityId == activities[k].id
    modifies activities
    ensures Between(last, at, clock)
    ensures AllProgress(old(Views(activities)), Views(activities), expected, expected, at)
  {
    assert Distinct(expected);
    PermutationDistinct(outcomes, expected);
    clock := last;
    at := seq(|activities|, k => last);
    ghost var before := Views(activities);
    for n := 0 to |outcomes|
      invariant Between(last, at, clock)
      invariant AllProgress(before, Views(activities), expected, outcomes[..n], at)
    {
      var o := outcomes[n];
      assert o in expected;
      PositionOf(activities, expected, o);
      var p := Position(activities, o.activityId);
      ghost var now := Views(activities);
      assert outcomes[..n + 1] == outcomes[..n] + [o];
      ProgressStep(before, now, expected, outcomes[..n], at, p, clock);
      clock := ApplyTo(activities, p, o, clock);
      ProgressStep(before, now, expected, outcomes[..n], at, p, clock);
      at := at[p := clock];
    }
    assert outcomes[..|outcomes|] == outcomes;
    forall k | 0 <= k < |activities|
      ensures Progress(before[k], Views(activities)[k], expected[k], expected, at[k])
    {
      assert Progress(before[k], Views(activities)[k], expected[k], outcomes, at[k]);
    }
  }

  ghost predicate AllSwept(before: seq<Row>, after: seq<Row>, check: seq<int>, force: seq<int>, n: nat)
    requires TriedAtLeast(before, 1)
  {
    && |before| == |after| && |check| == |force| == n <= |after|
    && (forall k :: 0 <= k < n ==> check[k] <= force[k] && after[k] == Swept(before[k], check[k], force[k]))
    && forall k :: n <= k < |after| ==> after[k] == before[k]
  }

  method Sweep(activities: seq<OutgoingActivity>, last: int)
    returns (clock: int, ghost check: seq<int>, ghost force: seq<int>)
    requires Separate(activities) && TriedAtLeast(Views(activities), 1)
    modifies activities
    ensures Between(last, check, clock) && Between(last, force, clock)
    ensures AllSwept(old(Views(activities)), Views(activities), check, force, |activities|)
  {
    clock, check, force := last, [], [];
    ghost var before := Views(activities);
    for n := 0 to |activities|
      invariant Between(last, check, clock) && Between(last, force, clock)
      invariant AllSwept(before, Views(activities), check, force, n)
    {
      ghost var c;
      c, clock := SweepRow(activities, n, clock);
      check, force := check + [c], force + [clock];
    }
  }

  method SweepRow(activities: seq<OutgoingActivity>, n: nat, last: int) returns (ghost check: int, clock: int)
    requires Separate(activities) && n < |activities| && activities[n].tries >= 1
    modifies activities[n]
    ensures last <= check <= clock
    ensures Views(activities) == old(Views(activities))[n := Swept(old(activities[n].View()), check, clock)]
  {
    check, clock := SweepOne(activities[n], last);
  }

  method SweepOne(activity: OutgoingActivity, last: int) returns (ghost check: int, clock: int)
    requires activity.tries >= 1
    modifies activity
    ensures last <= check <= clock
    ensures activity.View() == Swept(old(activity.View()), check, clock)
  {
    check, clock := last, last;
    if !activity.isSent && !activity.isErrored {
      if activity.nextTry == None {
        clock := SetNextTry(activity, MAX_RETRIES, None, last);
      } else {
        var now := Now(last);
        check, clock := now, now;
        if activity.nextTry.value <= now {
          clock := SetNextTry(activity, MAX_RETRIES, None, now);
        }
      }
    }
  }

  lemma ExpectedIds(requests: seq<Request>, buildErrors: map<int, Failure>, net: Network)
    ensures forall k :: 0 <= k < |requests| ==>
      AllExpected(requests, buildErrors, net)[k].activityId == requests[k].activityId
  {
    forall k | 0 <= k < |requests| {
      ExpectedAt(requests, buildErrors, net, k);
    }
  }

  lemma OutcomesPermuteExpected(rs: seq<Request>, buildErrors: map<int, Failure>, net: Network, delivered: seq<Outcome>)
    requires var built := Filter(Buildable(buildErrors), rs);
      delivered == GroupedOutcomes(Recipients(built), built, net)
    ensures multiset(BuildOutcomes(rs, buildErrors) + delivered) == multiset(AllExpected(rs, buildErrors, net))
  {
    OutcomesAsExpected(rs, buildErrors, net);
    ExactlyOneOutcomePerRequest(Filter(Buildable(buildErrors), rs), net);
  }

  /** Each row's way through a batch, at its own clock readings. */
  ghost predicate AllThroughBatch(before: seq<Row>, after: seq<Row>, expected: seq<Outcome>, at: seq<Readings>,
      from: int, to: int)
  {
    && |before| == |after| == |expected| == |at|
    && forall k :: 0 <= k < |before| ==>
         && at[k].Within(from, to)
         && before[k].tries >= 0
         && after[k] == AfterBatch(before[k], expected[k], at[k])
  }

  lemma Compose(r0: seq<Row>, r1: seq<Row>, r2: seq<Row>, r3: seq<Row>, expected: seq<Outcome>,
      prepare: seq<int>, apply: seq<int>, check: seq<int>, force: seq<int>, t0: int, t1: int, t2: int, t3: int)
    returns (at: seq<Readings>)
    requires TriedAtLeast(r0, 0)
    requires AllPrepared(r0, r1, prepare, |r0|) && Between(t0, prepare, t1)
    requires TriedAtLeast(r1, 1) && AllProgress(r1, r2, expected, expected, apply) && Between(t1, apply, t2)
    requires TriedAtLeast(r2, 1) && AllSwept(r2, r3, check, force, |r2|)
    requires Between(t2, check, t3) && Between(t2, force, t3)
    ensures AllThroughBatch(r0, r3, expected, at, t0, t3)
  {
    at := seq(|r0|, k requires 0 <= k < |r0| => Readings(prepare[k], apply[k], check[k], force[k]));
    forall k | 0 <= k < |r0|
      ensures at[k].Within(t0, t3) && r3[k] == AfterBatch(r0[k], expected[k], at[k])
    {
      assert Progress(r1[k], r2[k], expected[k], expected, apply[k]);
    }
  }

  lemma ProgressKeepsTries(before: seq<Row>, after: seq<Row>, expected: seq<Outcome>, at: seq<int>)
    requires TriedAtLeast(before, 1) && AllProgress(before, after, expected, expected, at)
    ensures TriedAtLeast(after, 1)
  {
    forall k | 0 <= k < |after|
      ensures after[k].tries >= 1
    {
      assert Progress(before[k], after[k], expected[k], expected, at[k]);
    }
  }

  /** Delivers what could be prepared and applies every outcome to its row. */
  method DeliverAndApply(activities: seq<OutgoingActivity>, requests: seq<Request>, buildOutcomes: seq<Outcome>,
      ghost buildErrors: map<int, Failure>, net: Network, last: int, concurrency: nat, perHost: nat)
    returns (clock: int, ghost at: seq<int>)
    requires Separate(activities) && TriedAtLeast(Views(activities), 1)
    requires concurrency >= 1 && perHost >= 1
    requires requests == Filter(Buildable(buildErrors), Requests(activities))
    requires buildOutcomes == BuildOutcomes(Requests(activities), buildErrors)
    modifies activities
    ensures Between(last, at, clock)
    ensures var expected := AllExpected(Requests(activities), buildErrors, net);
      AllProgress(old(Views(activities)), Views(activities), expected, expected, at)
  {
    var delivered := DeliverBatch(requests, net, concurrency, perHost);
    OutcomesPermuteExpected(Requests(activities), buildErrors, net, delivered);
    ExpectedIds(Requests(activities), buildErrors, net);
    clock, at := ApplyOutcomes(activities, buildOutcomes + delivered, last,
                               AllExpected(Requests(activities), buildErrors, net));
  }

  /** One batch: prepare every row, deliver, apply the outcomes, sweep. Every row ends where its own
      expected outcome takes it, whatever the scheduler did and in whatever order outcomes came. */
  method ProcessOutgoingActivitiesBatch(activities: seq<OutgoingActivity>, buildErrors: map<int, Failure>,
      net: Network, last: int, concurrency: nat, perHost: nat)
    returns (clock: int, ghost at: seq<Readings>)
    requires Separate(activities) && TriedAtLeast(Views(activities), 0)
    requires concurrency >= 1 && perHost >= 1
    modifies activities
    ensures AllThroughBatch(old(Views(activities)), Views(activities),
                            AllExpected(Requests(activities), buildErrors, net), at, last, clock)
  {
    clock, at := last, [];
    if activities == [] {
      return;
    }
    ghost var r0, expected := Views(activities), AllExpected(Requests(activities), buildErrors, net);
    var requests, outcomes;
    ghost var prepare, apply, check, force;
    requests, outcomes, clock, prepare := Prepare(activities, buildErrors, last);
    ghost var r1, t1 := Views(activities), clock;
    clock, apply := DeliverAndApply(activities, requests, outcomes, buildErrors, net, clock, concurrency, perHost);
    ghost var r2, t2 := Views(activities), clock;
    ProgressKeepsTries(r1, r2, expected, apply);
    clock, check, force := Sweep(activities, clock);
    at := Compose(r0, r1, r2, Views(activities), expected, prepare, apply, check, force, last, t1, t2, clock);
  }

  /** Request j of the batch was prepared, goes to request k's recipient before it, and finds the
      host unavailable. */
  predicate HoldsUp(requests: seq<Request>, buildErrors: map<int, Failure>, net: Network, j: int, k: int) {
    && 0 <= j < k < |requests|
    && requests[j].recipient == requests[k].recipient
    && requests[j].activityId !in buildErrors
    && HostDown(net(requests[j]))
  }

  /** From the queue to the wire: an activity of a batch ends up sent exactly when its request could
      be prepared, no earlier activity for the same recipient met a host-level failure, and the
      remote side accepted it. */
  lemma SentIff(requests: seq<Request>, buildErrors: map<int, Failure>, net: Network, k: nat)
    requires k < |requests|
    ensures AllExpected(requests, buildErrors, net)[k].result.Response? <==>
      && requests[k].activityId !in buildErrors
      && net(requests[k]).Success?
      && !exists j :: HoldsUp(requests, buildErrors, net, j, k)
  {
    ExpectedAt(requests, buildErrors, net, k);
    var req := requests[k];
    var built := Filter(Buildable(buildErrors), requests[..k]);
    var earlier := Filter(SentTo(req.recipient), built);
    FilterMembers(Buildable(buildErrors), requests[..k]);
    FilterMembers(SentTo(req.recipient), built);
    FirstUnavailableIff(earlier, net);
    if FirstUnavailable(earlier, net).Some? {
      var j :| 0 <= j < k && requests[..k][j] == FirstUnavailable(earlier, net).value;
      assert HoldsUp(requests, buildErrors, net, j, k);
    } else {
      forall j | 0 <= j < k
        ensures !HoldsUp(requests, buildErrors, net, j, k)
      {
        assert requests[j] in requests[..k];
      }
    }
  }

  /** A pause reaches every later row of its recipient: request i is the first one that finds its host down, so
      the row of request j is not attempted, and waits for the instant that i's reply asked for, when that is
      still to come, and else its own backoff. */
  lemma PauseReachesTheRow(requests: seq<Request>, buildErrors: map<int, Failure>, net: Network, before: seq<Row>,
      after: seq<Row>, at: seq<Readings>, from: int, to: int, i: nat, j: nat)
    requires AllThroughBatch(before, after, AllExpected(requests, buildErrors, net), at, from, to)
    requires HoldsUp(requests, buildErrors, net, i, j) && !exists k :: HoldsUp(requests, buildErrors, net, k, i)
    requires requests[j].activityId !in buildErrors
    requires !before[j].isSent && !before[j].isErrored && before[j].tries + 1 < 16
    ensures var reply, n := net(requests[i]), before[j].tries + 1;
      var asked := reply.exc != Transport && reply.retryAfter.Some?;
      var due := if asked then reply.retryAfter.value else at[j].apply + Pow2(n) * 1_000_000;
      && AllExpected(requests, buildErrors, net)[j].result == Skipped(requests[i].host)
      && after[j].nextTry == Some(if due > at[j].check then due else at[j].force + Pow2(n) * 1_000_000)
  {
    hide AllExpected, AfterBatch, Pow2;
    SkippedAt(requests, buildErrors, net, i, j);
    assert at[j].Within(from, to);
    RowAfterBatch(before[j], AllExpected(requests, buildErrors, net)[j], at[j]);
  }

  /** Among the prepared requests of a batch the first one that finds the host down decides for the later ones. */
  lemma SkippedAt(requests: seq<Request>, buildErrors: map<int, Failure>, net: Network, i: nat, j: nat)
    requires HoldsUp(requests, buildErrors, net, i, j) && !exists k :: HoldsUp(requests, buildErrors, net, k, i)
    requires requests[j].activityId !in buildErrors
    ensures var reply := net(requests[i]);
      AllExpected(requests, buildErrors, net)[j]
        == Outcome(requests[j].activityId, Skipped(requests[i].host),
                   if reply.exc == Transport then None else reply.retryAfter)
  {
    var p, q := SentTo(requests[i].recipient), Buildable(buildErrors);
    var before, behind := requests[..i], requests[i + 1..j];
    assert requests[..j] == before + ([requests[i]] + behind);
    FilterConcat(q, before, [requests[i]] + behind);
    FilterConcat(q, [requests[i]], behind);
    FilterEverything(q, [requests[i]]);
    FilterConcat(p, Filter(q, before), [requests[i]] + Filter(q, behind));
    FilterConcat(p, [requests[i]], Filter(q, behind));
    FilterEverything(p, [requests[i]]);
    var earlier := Filter(p, Filter(q, before));
    FilterMembers(q, before);
    FilterMembers(p, Filter(q, before));
    FirstUnavailableIff(earlier, net);
    forall req | req in earlier
      ensures !HostDown(net(req))
    {
      var k :| 0 <= k < i && before[k] == req;
      assert !HoldsUp(requests, buildErrors, net, k, i);
    }
    FirstUnavailableConcat(earlier, [requests[i]] + Filter(p, Filter(q, behind)), net);
    UnavailableIff(requests[i], net(requests[i]));
    ExpectedAt(requests, buildErrors, net, j);
  }

  // ---------------------------------------------------------------- runs of batches

  /** The table of queue rows, the clock, and how often the process died inside a batch. */
  datatype QueueState = QueueState(rows: seq<Row>, now: int, crashes: nat)

  /** A batch over the picked rows; a batch whose process dies after the first commit; a new row; the
      passing of time. */
  datatype Action =
    | Batch(picked: set<nat>, outcomes: seq<Outcome>, at: seq<Readings>)
    | Crash(picked: set<nat>, prepared: seq<int>)
    | Enqueue
    | Tick(passed: nat)

  function NewRow(now: int): Row {
    Row(0, None, Some(now), false, false, None)
  }

  /** A new row has made no attempt and is due at once. */
  lemma NewRowIsDue(now: int, later: nat)
    ensures var row := NewRow(now);
      && row.tries == 0 && row.lastTry == None && row.lastStatusCode == None
      && Due(row, now + later) && !Due(row, now - 1 - later)
  {
  }

  ghost predicate Fetched(s: QueueState, picked: set<nat>) {
    picked != {} && forall i <- picked :: i < |s.rows| && Due(s.rows[i], s.now)
  }

  ghost predicate Next(s: QueueState, a: Action, s': QueueState) {
    match a
    case Batch(picked, outcomes, at) =>
      && Fetched(s, picked)
      && |outcomes| == |at| == |s.rows| == |s'.rows|
      && s'.crashes == s.crashes && s.now <= s'.now
      && forall i :: 0 <= i < |s.rows| ==>
           if i in picked then
             at[i].Within(s.now, s'.now) && s.rows[i].tries >= 0
             && s'.rows[i] == AfterBatch(s.rows[i], outcomes[i], at[i])
           else
             s'.rows[i] == s.rows[i]
    case Crash(picked, prepared) =>
      && Fetched(s, picked)
      && |prepared| == |s.rows| == |s'.rows|
      && s'.crashes == s.crashes + 1 && s.now <= s'.now
      && forall i :: 0 <= i < |s.rows| ==>
           s'.rows[i] == if i in picked then Prepared(s.rows[i], prepared[i]) else s.rows[i]
    case Enqueue => s' == s.(rows := s.rows + [NewRow(s.now)])
    case Tick(passed) => s' == s.(now := s.now + passed)
  }

  ghost predicate IsRun(states: seq<QueueState>, actions: seq<Action>) {
    && |states| == |actions| + 1
    && states[0].rows == [] && states[0].crashes == 0
    && forall i :: 0 <= i < |actions| ==> Next(states[i], actions[i], states[i + 1])
  }

  /** The rows of the table that a batch works on, by their places in it. */
  ghost predicate Picks(rows: seq<Row>, picks: seq<nat>, now: int) {
    && picks != [] && Distinct(picks)
    && forall k :: 0 <= k < |picks| ==> picks[k] < |rows| && rows[picks[k]].tries >= 0 && Due(rows[picks[k]], now)
  }

  ghost function PlaceOf(picks: seq<nat>, i: nat): (k: nat)
    requires i in picks
    ensures k < |picks| && picks[k] == i
  {
    var k :| 0 <= k < |picks| && picks[k] == i;
    k
  }

  /** What the values of a batch are for each row of the table; `other` stands for the rows outside the batch. */
  ghost function Spread<T>(picks: seq<nat>, values: seq<T>, other: T, n: nat): (spread: seq<T>)
    requires |values| == |picks|
    ensures |spread| == n
    ensures forall i :: 0 <= i < n ==> spread[i] == if i in picks then values[PlaceOf(picks, i)] else other
  {
    seq(n, i requires 0 <= i < n => if i in picks then values[PlaceOf(picks, i)] else other)
  }

  ghost function PickedSet(picks: seq<nat>): set<nat> {
    set i | i in picks
  }

  ghost function BatchOf(picks: seq<nat>, expected: seq<Outcome>, at: seq<Readings>, n: nat): Action
    requires |picks| == |expected| == |at|
  {
    Batch(PickedSet(picks), Spread(picks, expected, Outcome(0, Response(200), None), n),
          Spread(picks, at, Readings(0, 0, 0, 0), n))
  }

  /** The rows of the table after a batch over some of them. */
  ghost predicate BatchWrites(rows: seq<Row>, rows': seq<Row>, picks: seq<nat>, before: seq<Row>, after: seq<Row>) {
    && |rows| == |rows'| && |picks| == |before| == |after|
    && (forall k :: 0 <= k < |picks| ==>
          picks[k] < |rows| && before[k] == rows[picks[k]] && after[k] == rows'[picks[k]])
    && forall i :: 0 <= i < |rows| && i !in picks ==> rows'[i] == rows[i]
  }

  /** Every row's way through a batch is one batch step of the table the rows are from. */
  lemma BatchIsAStep(s: QueueState, s': QueueState, picks: seq<nat>, before: seq<Row>, after: seq<Row>,
      expected: seq<Outcome>, at: seq<Readings>)
    requires Picks(s.rows, picks, s.now) && BatchWrites(s.rows, s'.rows, picks, before, after)
    requires AllThroughBatch(before, after, expected, at, s.now, s'.now)
    requires s'.crashes == s.crashes
    ensures Next(s, BatchOf(picks, expected, at, |s.rows|), s')
  {
    var a := BatchOf(picks, expected, at, |s.rows|);
    forall i | 0 <= i < |s.rows| && i in picks
      ensures a.at[i].Within(s.now, s'.now) && s.rows[i].tries >= 0
      ensures s'.rows[i] == AfterBatch(s.rows[i], a.outcomes[i], a.at[i])
    {
      var k := PlaceOf(picks, i);
      assert at[k].Within(s.now, s'.now);
    }
    assert picks[0] in a.picked;
    assert at[0].Within(s.now, s'.now);
  }

  /** The worker runs a batch over due rows of its queue: one batch step of the queue, in which every row that
      was picked meets the outcome expected for it. */
  method RunBatch(queue: seq<OutgoingActivity>, picks: seq<nat>, buildErrors: map<int, Failure>, net: Network,
      now: int, concurrency: nat, perHost: nat, ghost crashes: nat)
    returns (clock: int, ghost at: seq<Readings>)
    requires Separate(queue) && Picks(Views(queue), picks, now)
    requires concurrency >= 1 && perHost >= 1
    modifies queue
    ensures |at| == |picks|
    ensures
      var expected := AllExpected(Requests(Selected(queue, picks)), buildErrors, net);
      Next(QueueState(old(Views(queue)), now, crashes), BatchOf(picks, expected, at, |queue|),
           QueueState(Views(queue), clock, crashes))
  {
    var activities := Selected(queue, picks);
    SelectedSeparate(queue, picks);
    ghost var before, rows := Views(activities), Views(queue);
    clock, at := ProcessOutgoingActivitiesBatch(activities, buildErrors, net, now, concurrency, perHost);
    ghost var expected := AllExpected(Requests(activities), buildErrors, net);
    BatchIsAStep(QueueState(rows, now, crashes), QueueState(Views(queue), clock, crashes), picks, before,
                 Views(activities), expected, at);
  }

  function Selected(queue: seq<OutgoingActivity>, picks: seq<nat>): (activities: seq<OutgoingActivity>)
    requires forall k :: 0 <= k < |picks| ==> picks[k] < |queue|
    ensures |activities| == |picks| && forall k :: 0 <= k < |picks| ==> activities[k] == queue[picks[k]]
  {
    seq(|picks|, k requires 0 <= k < |picks| => queue[picks[k]])
  }

  lemma SelectedSeparate(queue: seq<OutgoingActivity>, picks: seq<nat>)
    requires Separate(queue) && Distinct(picks) && forall k :: 0 <= k < |picks| ==> picks[k] < |queue|
    ensures Separate(Selected(queue, picks))
    ensures forall i :: 0 <= i < |queue| && i !in picks ==> queue[i] !in Selected(queue, picks)
  {
    forall j, k | 0 <= j < k < |picks|
      ensures queue[picks[j]].id != queue[picks[k]].id && queue[picks[j]] != queue[picks[k]]
    {
      assert picks[j] < picks[k] || picks[k] < picks[j];
    }
    forall i | 0 <= i < |queue| && i !in picks
      ensures queue[i] !in Selected(queue, picks)
    {
      forall k | 0 <= k < |picks|
        ensures queue[picks[k]] != queue[i]
      {
        assert picks[k] < i || i < picks[k];
      }
    }
  }

  predicate RowInv(row: Row, crashes: nat) {
    && 0 <= row.tries <= MAX_RETRIES + crashes
    && !(row.isSent && row.isErrored)
    && (!row.Settled() ==> row.tries < MAX_RETRIES + crashes && row.nextTry.Some?)
  }

  ghost predicate QueueInv(s: QueueState) {
    forall i :: 0 <= i < |s.rows| ==> RowInv(s.rows[i], s.crashes)
  }

  lemma NextInv(s: QueueState, a: Action, s': QueueState)
    requires QueueInv(s) && Next(s, a, s')
    ensures QueueInv(s')
    ensures |s.rows| <= |s'.rows|
    ensures forall i :: 0 <= i < |s.rows| && s.rows[i].Settled() ==> s'.rows[i] == s.rows[i]
  {
    forall i | 0 <= i < |s'.rows|
      ensures RowInv(s'.rows[i], s'.crashes)
      ensures i < |s.rows| && s.rows[i].Settled() ==> s'.rows[i] == s.rows[i]
    {
      if i < |s.rows| {
        assert RowInv(s.rows[i], s.crashes);
        if a.Batch? && i in a.picked {
          assert Due(s.rows[i], s.now);
          RowLeavesBatch(s.rows[i], a.outcomes[i], a.at[i]);
        }
      }
    }
  }

  /** Over every run: a row is never both sent and errored, an open row is always scheduled, no row
      is attempted more than 16 times plus once per crash, and a row that was sent or given up never
      changes again. */
  lemma {:induction false} QueueSafety(states: seq<QueueState>, actions: seq<Action>, n: nat)
    requires IsRun(states, actions) && n < |states|
    ensures QueueInv(states[n])
    ensures forall m :: 0 <= m <= n ==> |states[m].rows| <= |states[n].rows|
    ensures forall m, i :: 0 <= m <= n && 0 <= i < |states[m].rows| && states[m].rows[i].Settled()
              ==> states[n].rows[i] == states[m].rows[i] && !Due(states[n].rows[i], states[n].now)
  {
    if n > 0 {
      QueueSafety(states, actions, n - 1);
      NextInv(states[n - 1], actions[n - 1], states[n]);
    }
  }

  /** What an open row may still cost: at least one more attempt, at most those left on the ladder. */
  function TriesLeft(): Row -> int {
    (row: Row) => if row.Settled() then 0 else Max(1, MAX_RETRIES - row.tries)
  }

  lemma BatchLowersTriesLeft(s: QueueState, a: Action, s': QueueState)
    requires QueueInv(s) && Next(s, a, s') && a.Batch?
    ensures Sum(TriesLeft(), s'.rows) < Sum(TriesLeft(), s.rows)
  {
    forall i | 0 <= i < |s.rows|
      ensures TriesLeft()(s'.rows[i]) <= TriesLeft()(s.rows[i])
      ensures i in a.picked ==> TriesLeft()(s'.rows[i]) < TriesLeft()(s.rows[i])
    {
      if i in a.picked {
        assert RowInv(s.rows[i], s.crashes) && Due(s.rows[i], s.now);
        RowLeavesBatch(s.rows[i], a.outcomes[i], a.at[i]);
      }
    }
    var i :| i in a.picked;
    SumLess(TriesLeft(), s'.rows, s.rows, i);
  }

  /** A crash leaves the tries left as they are or lowers them, and a new row brings sixteen. */
  lemma StepTriesLeft(s: QueueState, a: Action, s': QueueState)
    requires QueueInv(s) && Next(s, a, s')
    ensures Sum(TriesLeft(), s'.rows) + (if a.Batch? then 1 else 0)
      <= Sum(TriesLeft(), s.rows) + if a.Enqueue? then MAX_RETRIES else 0
  {
    match a
    case Batch(_, _, _) => BatchLowersTriesLeft(s, a, s');
    case Crash(_, _) => SumPointwise(TriesLeft(), s'.rows, s.rows);
    case Enqueue => SumConcat(TriesLeft(), s.rows, [NewRow(s.now)]);
    case Tick(_) =>
  }

  function IsBatch(): Action -> bool {
    (a: Action) => a.Batch?
  }

  function IsEnqueue(): Action -> bool {
    (a: Action) => a.Enqueue?
  }

  /** The queue drains: in every stretch of a run the batches number at most the tries left on the rows it
      starts from, plus sixteen for every row it adds. */
  lemma {:induction false} QueueDrains(states: seq<QueueState>, actions: seq<Action>)
    requires |states| == |actions| + 1 && QueueInv(states[0])
    requires forall i :: 0 <= i < |actions| ==> Next(states[i], actions[i], states[i + 1])
    ensures |Filter(IsBatch(), actions)|
      <= Sum(TriesLeft(), states[0].rows) + MAX_RETRIES * |Filter(IsEnqueue(), actions)|
  {
    hide Next, TriesLeft, QueueInv;
    if actions == [] {
      TriesLeftNatural(states[0].rows);
    } else {
      NextInv(states[0], actions[0], states[1]);
      StepTriesLeft(states[0], actions[0], states[1]);
      forall i | 0 <= i < |actions| - 1
        ensures Next(states[1..][i], actions[1..][i], states[1..][i + 1])
      {
        assert Next(states[i + 1], actions[i + 1], states[i + 2]);
      }
      QueueDrains(states[1..], actions[1..]);
    }
  }

  lemma TriesLeftNatural(rows: seq<Row>)
    ensures Sum(TriesLeft(), rows) >= 0
  {
    SumNonNegative(TriesLeft(), rows);
  }

  // ---------------------------------------------------------------- the bound of 16 needs crash-freedom

  ghost predicate OneOpenRow(s: QueueState, tries: int, crashes: nat) {
    s.crashes == crashes && |s.rows| == 1 && s.rows[0].tries == tries && Due(s.rows[0], s.now)
  }

  lemma Extend(states: seq<QueueState>, actions: seq<Action>, a: Action, s: QueueState)
    requires IsRun(states, actions) && Next(states[|actions|], a, s)
    ensures IsRun(states + [s], actions + [a])
  {
    var states', actions' := states + [s], actions + [a];
    forall i | 0 <= i < |actions'|
      ensures Next(states'[i], actions'[i], states'[i + 1])
    {
      if i < |actions| {
        assert Next(states[i], actions[i], states[i + 1]);
      }
    }
  }

  /** A batch in which the only row meets an unreachable host, then the wait until it is due again. */
  lemma FailOnce(states: seq<QueueState>, actions: seq<Action>, tries: nat, crashes: nat)
    returns (states': seq<QueueState>, actions': seq<Action>)
    requires IsRun(states, actions) && OneOpenRow(states[|actions|], tries, crashes)
    requires tries + 1 < MAX_RETRIES
    ensures IsRun(states', actions') && OneOpenRow(states'[|actions'|], tries + 1, crashes)
  {
    var s := states[|actions|];
    var at := Readings(s.now, s.now, s.now, s.now);
    var o := Outcome(0, Exception(Transport), None);
    var row := AfterBatch(s.rows[0], o, at);
    var a := Batch({0}, [o], [at]);
    var s1 := s.(rows := [row]);
    assert Next(s, a, s1);
    Extend(states, actions, a, s1);
    var wait := BackoffDelay(tries + 1);
    var s2 := s1.(now := s1.now + wait);
    Extend(states + [s1], actions + [a], Tick(wait), s2);
    states', actions' := states + [s1] + [s2], actions + [a] + [Tick(wait)];
  }

  lemma {:induction false} ClimbTo(n: nat) returns (states: seq<QueueState>, actions: seq<Action>)
    requires n < MAX_RETRIES
    ensures IsRun(states, actions) && OneOpenRow(states[|actions|], n, 0)
  {
    if n == 0 {
      var s0 := QueueState([], 0, 0);
      var s1 := QueueState([NewRow(0)], 0, 0);
      states, actions := [s0, s1], [Enqueue];
      assert Next(s0, Enqueue, s1);
    } else {
      states, actions := ClimbTo(n - 1);
      states, actions := FailOnce(states, actions, n - 1, 0);
    }
  }

  /** A batch whose process dies after the first commit uses a try up and leaves the row due. */
  lemma {:induction false} CrashTo(c: nat) returns (states: seq<QueueState>, actions: seq<Action>)
    ensures IsRun(states, actions) && OneOpenRow(states[|actions|], MAX_RETRIES - 1 + c, c)
  {
    if c == 0 {
      states, actions := ClimbTo(MAX_RETRIES - 1);
    } else {
      states, actions := CrashTo(c - 1);
      var s := states[|actions|];
      var s' := s.(rows := [Prepared(s.rows[0], s.now)], crashes := c);
      assert Next(s, Crash({0}, [s.now]), s');
      Extend(states, actions, Crash({0}, [s.now]), s');
      states, actions := states + [s'], actions + [Crash({0}, [s.now])];
    }
  }

  /** The bound of 16 attempts plus one for every crash is reached, for any number of crashes: an attempt is
      counted and committed before it is made, so a crash at the wrong moment leaves a row with a try used
      up and open. */
  lemma CrashesAllowMoreTries(c: nat) returns (states: seq<QueueState>, actions: seq<Action>)
    ensures IsRun(states, actions)
    ensures states[|actions|].crashes == c
    ensures |states[|actions|].rows| == 1 && states[|actions|].rows[0].tries == MAX_RETRIES + c
  {
    states, actions := CrashTo(c);
    var s := states[|actions|];
    var at := Readings(s.now, s.now, s.now, s.now);
    var o := Outcome(0, Response(200), None);
    var s' := s.(rows := [AfterBatch(s.rows[0], o, at)]);
    assert Next(s, Batch({0}, [o], [at]), s');
    Extend(states, actions, Batch({0}, [o], [at]), s');
    states, actions := states + [s'], actions + [Batch({0}, [o], [at])];
  }
}
