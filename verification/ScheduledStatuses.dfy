/** Scheduled statuses: a queue row turns into one status, whatever fails and wherever the process stops. */
module ScheduledStatuses {
  import opened Base

  const MAX_TRIES := 5

  /** Five minutes; times are in seconds. */
  const RETRY_BASE_DELAY := 300

  datatype Row = Row(scheduledAt: int, tries: nat, nextTry: Option<int>)

  /** The queue by row id, the next row id, the row each published status came from, in the order they
      were published, and the rows the owner has cancelled. */
  datatype Db = Db(queue: map<nat, Row>, nextId: nat, statuses: seq<nat>, cancelled: set<nat>)

  /** What becomes of an attempt: it raises, in the reads before the send, in the send, or after the send's
      commit; the process stops, in the send, at its commit, after it, or before a failure is recorded; or
      nothing happens to it. A send is early when it commits once before it has staged the status: it does so
      when the post to quote, found by the reads before it, is no longer stored. */
  datatype Fate =
    | Unresolved | SendRaises(early: bool) | CounterRaises(early: bool)
    | StopsInSend(early: bool) | StopsAtCommit(early: bool) | StopsAfterCommit(early: bool)
    | StopsBeforeRecord(early: bool)
    | Publishes(early: bool)

  predicate Stops(fate: Fate) {
    fate.StopsInSend? || fate.StopsAtCommit? || fate.StopsAfterCommit? || fate.StopsBeforeRecord?
  }

  predicate Raises(fate: Fate) {
    fate.Unresolved? || fate.SendRaises? || fate.CounterRaises?
  }

  predicate Completes(fate: Fate) {
    fate.Publishes? || fate.CounterRaises? || fate.StopsAfterCommit?
  }

  predicate Early(fate: Fate) {
    !fate.Unresolved? && fate.early
  }

  /** The row's delete is committed and the status is not. */
  predicate Loses(fate: Fate) {
    Early(fate) && !Completes(fate)
  }

  // ---------------------------------------------------------------- the operations, on values

  function NewRow(at: int): Row {
    Row(at, 0, Some(at))
  }

  function AfterFailure(row: Row, now: int): Row {
    var tries := row.tries + 1;
    row.(tries := tries, nextTry := if tries >= MAX_TRIES then None else Some(now + RETRY_BASE_DELAY * Pow2(tries - 1)))
  }

  function Failed(db: Db, id: nat, now: int): Db {
    if id !in db.queue then db else db.(queue := db.queue[id := AfterFailure(db.queue[id], now)])
  }

  function Published(db: Db, id: nat): Db {
    db.(queue := db.queue - {id}, statuses := db.statuses + [id])
  }

  function Dropped(db: Db, id: nat): Db {
    db.(queue := db.queue - {id})
  }

  /** The committed tables after an attempt at a row. */
  function Attempted(db: Db, id: nat, now: int, fate: Fate): Db {
    if id !in db.queue then db
    else if Completes(fate) then Published(db, id)
    else if Early(fate) then Dropped(db, id)
    else if Raises(fate) then Failed(db, id, now)
    else db
  }

  // ---------------------------------------------------------------- the operations, in a session

  /** A database session: what is committed, and the transaction staged on top of it. */
  class Session {
    var committed: Db
    var staged: Db

    predicate Clean()
      reads this
    {
      staged == committed
    }

    method Commit()
      modifies this`committed
      ensures committed == staged
    {
      committed := staged;
    }

    /** Also what is left of a transaction when the process stops. */
    method Rollback()
      modifies this`staged
      ensures staged == committed
    {
      staged := committed;
    }

    method RecordFailure(id: nat, now: int)
      requires Clean()
      modifies this
      ensures Clean() && committed == Failed(old(committed), id, now)
    {
      if id !in staged.queue {
        return;
      }
      var row := staged.queue[id];
      row := row.(tries := row.tries + 1);
      if row.tries >= MAX_TRIES {
        row := row.(nextTry := None);
      } else {
        row := row.(nextTry := Some(now + RETRY_BASE_DELAY * Pow2(row.tries - 1)));
      }
      staged := staged.(queue := staged.queue[id := row]);
      Commit();
    }

    /** The send itself: the row's delete and the new status are staged together and committed once, unless
        the send is early. */
    method Publish(id: nat, fate: Fate) returns (raised: bool, stopped: bool)
      requires Clean() && id in committed.queue
      modifies this
      ensures stopped <==> Stops(fate) && !fate.StopsBeforeRecord?
      ensures raised <==> Raises(fate) || fate.StopsBeforeRecord?
      ensures committed == if Completes(fate) then Published(old(committed), id)
                           else if Early(fate) then Dropped(old(committed), id)
                           else old(committed)
      ensures !raised && !stopped ==> Clean()
    {
      raised, stopped := false, false;
      if fate.Unresolved? {
        return true, false;
      }
      staged := staged.(queue := staged.queue - {id});
      if fate.early {
        Commit();
      }
      if fate.SendRaises? || fate.StopsBeforeRecord? {
        return true, false;
      }
      if fate.StopsInSend? {
        return false, true;
      }
      staged := staged.(statuses := staged.statuses + [id]);
      if fate.StopsAtCommit? {
        return false, true;
      }
      Commit();
      if fate.StopsAfterCommit? {
        return false, true;
      }
      if fate.CounterRaises? {
        return true, false;
      }
    }

    /** One row of a pass; a process that stopped starts over from what was committed. */
    method Attempt(id: nat, now: int, fate: Fate) returns (published: bool, stopped: bool)
      requires Clean()
      modifies this
      ensures Clean() && committed == Attempted(old(committed), id, now, fate)
      ensures published <==> id in old(committed).queue && fate.Publishes?
      ensures stopped <==> id in old(committed).queue && Stops(fate)
    {
      published, stopped := false, false;
      if id !in staged.queue {
        return;
      }
      var raised;
      raised, stopped := Publish(id, fate);
      if stopped || fate.StopsBeforeRecord? {
        Rollback();
        return false, true;
      }
      if raised {
        Rollback();
        RecordFailure(id, now);
        return false, false;
      }
      published := true;
    }

    /** A pass over the rows that were due; it ends early when the process stops. */
    method PublishDueScheduledStatuses(due: seq<nat>, times: seq<int>, fates: seq<Fate>) returns (published: nat)
      requires Clean() && |due| == |times| == |fates|
      modifies this
      ensures Clean()
      ensures exists n: nat ::
        PassedTo(old(committed), committed, due, times, fates, n, published)
    {
      published := 0;
      var n, stopped := 0, false;
      while n < |due| && !stopped
        invariant n <= |due| && Clean()
        invariant committed == AfterAttempts(old(committed), due[..n], times[..n], fates[..n])
        invariant published == Sent(old(committed), due[..n], times[..n], fates[..n])
        invariant stopped ==> exists k :: 0 <= k < n && Stops(fates[k])
      {
        var sent;
        sent, stopped := Attempt(due[n], times[n], fates[n]);
        if sent {
          published := published + 1;
        }
        n := n + 1;
        assert due[..n][..n - 1] == due[..n - 1] && times[..n][..n - 1] == times[..n - 1];
        assert fates[..n][..n - 1] == fates[..n - 1];
      }
      assert PassedTo(old(committed), committed, due, times, fates, n, published);
    }
  }

  /** Attempts one after another, each seeing what the ones before it committed. */
  function AfterAttempts(db: Db, due: seq<nat>, times: seq<int>, fates: seq<Fate>): Db
    requires |due| == |times| == |fates|
  {
    if due == [] then db else
      var n := |due| - 1;
      Attempted(AfterAttempts(db, due[..n], times[..n], fates[..n]), due[n], times[n], fates[n])
  }

  /** How many of those attempts published a status and went on. */
  function Sent(db: Db, due: seq<nat>, times: seq<int>, fates: seq<Fate>): nat
    requires |due| == |times| == |fates|
  {
    if due == [] then 0 else
      var n := |due| - 1;
      var before := AfterAttempts(db, due[..n], times[..n], fates[..n]);
      Sent(db, due[..n], times[..n], fates[..n]) + if due[n] in before.queue && fates[n].Publishes? then 1 else 0
  }

  /** The number a pass reports is at most that of the statuses it published, and exactly that unless some attempt
      raised or stopped after the commit. */
  lemma {:induction false} SentArePublished(db: Db, due: seq<nat>, times: seq<int>, fates: seq<Fate>)
    requires |due| == |times| == |fates|
    ensures var published := |AfterAttempts(db, due, times, fates).statuses| - |db.statuses|;
      && Sent(db, due, times, fates) <= published
      && ((forall fate <- fates :: !fate.CounterRaises? && !fate.StopsAfterCommit?) ==>
            Sent(db, due, times, fates) == published)
  {
    if due != [] {
      var n := |due| - 1;
      assert fates == fates[..n] + [fates[n]];
      SentArePublished(db, due[..n], times[..n], fates[..n]);
    }
  }

  /** A pass got through its first n rows: all of them, or up to where the process stopped. */
  ghost predicate PassedTo(before: Db, after: Db, due: seq<nat>, times: seq<int>, fates: seq<Fate>, n: nat,
      published: nat)
  {
    && |due| == |times| == |fates| && n <= |due|
    && after == AfterAttempts(before, due[..n], times[..n], fates[..n])
    && published == Sent(before, due[..n], times[..n], fates[..n])
    && (n == |due| || exists k :: 0 <= k < n && Stops(fates[k]))
  }

  // ---------------------------------------------------------------- runs

  datatype Event =
    | Schedule(at: int)
    | Reschedule(id: nat, at: int)
    | Cancel(id: nat)
    | Attempt(id: nat, now: int, fate: Fate)

  function Apply(db: Db, e: Event): Db {
    match e
    case Schedule(at) => db.(queue := db.queue[db.nextId := NewRow(at)], nextId := db.nextId + 1)
    case Reschedule(id, at) => if id in db.queue then db.(queue := db.queue[id := NewRow(at)]) else db
    case Cancel(id) =>
      if id in db.queue then db.(queue := db.queue - {id}, cancelled := db.cancelled + {id}) else db
    case Attempt(id, now, fate) => Attempted(db, id, now, fate)
  }

  /** What a fate means: whether the process goes down, whether an exception reaches the caller, and whether the
      send's commit with the status in it was reached. */
  lemma FatesAre(fate: Fate)
    ensures Stops(fate) <==>
      !fate.Publishes? && !fate.Unresolved? && !fate.SendRaises? && !fate.CounterRaises?
    ensures Raises(fate) <==> !fate.Publishes? && !Stops(fate)
    ensures Completes(fate) <==>
      !fate.Unresolved? && !fate.SendRaises? && !fate.StopsInSend? && !fate.StopsAtCommit? && !fate.StopsBeforeRecord?
    ensures Early(fate) <==> fate != Unresolved && fate.early == true
  {
  }

  /** What an attempt at a queued row commits: the status in place of the row when the send's commit was reached,
      only the row's delete when an early send got no further, one more failure when it raised before that (five
      minutes off, doubled by each earlier failure, and none after the fifth), and nothing when the process stopped
      before that. */
  lemma AttemptWrites(db: Db, id: nat, now: int, fate: Fate)
    requires id in db.queue
    ensures var after, row := Attempted(db, id, now, fate), db.queue[id];
      var n := row.tries + 1;
      var reached := fate.Publishes? || fate.CounterRaises? || fate.StopsAfterCommit?;
      var left := !reached && !fate.Unresolved? && fate.early;
      var failed := !reached && !left && (fate.Unresolved? || fate.SendRaises?);
      && after.nextId == db.nextId && after.cancelled == db.cancelled
      && after.statuses == (if reached then db.statuses + [id] else db.statuses)
      && after.queue.Keys == (if reached || left then db.queue.Keys - {id} else db.queue.Keys)
      && (forall other <- after.queue :: other != id ==> after.queue[other] == db.queue[other])
      && (failed ==>
            after.queue[id] == Row(row.scheduledAt, n, if n >= 5 then None else Some(now + 300 * Pow2(n - 1))))
      && (!reached && !left && !failed ==> after == db)
    ensures Apply(db, Attempt(id, now, fate)) == Attempted(db, id, now, fate)
  {
  }

  /** What the owner does: a new row or new time starts with no tries and is due at that time; a cancelled row is
      taken out and remembered. Neither touches a status, and a row that is gone is left alone. */
  lemma OwnerWrites(db: Db, id: nat, at: int)
    ensures Apply(db, Schedule(at)) == Db(db.queue[db.nextId := Row(at, 0, Some(at))], db.nextId + 1, db.statuses,
                                          db.cancelled)
    ensures Apply(db, Reschedule(id, at)).queue == if id in db.queue then db.queue[id := Row(at, 0, Some(at))]
                                                   else db.queue
    ensures Apply(db, Reschedule(id, at)) == db.(queue := Apply(db, Reschedule(id, at)).queue)
    ensures id in db.queue ==> Apply(db, Cancel(id)) == Db(db.queue - {id}, db.nextId, db.statuses, db.cancelled + {id})
    ensures id !in db.queue ==> Apply(db, Cancel(id)) == db && Attempted(db, id, at, Unresolved) == db
  {
  }

  /** Only a row that still has a next try is picked up. */
  predicate Allowed(db: Db, e: Event) {
    e.Attempt? && e.id in db.queue ==> db.queue[e.id].nextTry.Some?
  }

  function After(history: seq<Event>): Db {
    if history == [] then Db(map[], 0, [], {}) else
      Apply(After(history[..|history| - 1]), history[|history| - 1])
  }

  /** A history goes on event by event. */
  lemma OneMoreEvent(history: seq<Event>, e: Event)
    ensures After([]) == Db(map[], 0, [], {})
    ensures After(history + [e]) == Apply(After(history), e)
  {
    assert (history + [e])[..|history|] == history;
  }

  ghost predicate AllAllowed(history: seq<Event>) {
    forall n :: 0 <= n < |history| ==> Allowed(After(history[..n]), history[n])
  }

  lemma AllowedPrefix(history: seq<Event>, m: nat)
    requires AllAllowed(history) && m <= |history|
    ensures AllAllowed(history[..m])
  {
    forall n | 0 <= n < m
      ensures Allowed(After(history[..m][..n]), history[..m][n])
    {
      assert history[..m][..n] == history[..n];
    }
  }

  // ---------------------------------------------------------------- exactly once

  /** No row is in two places at once: queued, published, or cancelled; and none is published twice. */
  ghost predicate Accounted(db: Db) {
    && (forall id: nat :: id in db.queue || id in db.statuses || id in db.cancelled ==> id < db.nextId)
    && (forall id <- db.queue :: id !in db.statuses && id !in db.cancelled)
    && (forall id <- db.cancelled :: id !in db.statuses)
    && Distinct(db.statuses)
  }

  /** The row was scheduled, and is in none of these places. */
  ghost predicate IsLost(db: Db, id: nat) {
    id < db.nextId && id !in db.queue && id !in db.statuses && id !in db.cancelled
  }

  lemma StepKeepsAccounted(db: Db, e: Event)
    requires Accounted(db)
    ensures Accounted(Apply(db, e))
  {
    var after := Apply(db, e);
    assert forall id: nat :: id in after.statuses ==> id in db.statuses || (id in db.queue && id !in after.queue);
  }

  lemma {:induction false} RowsAreAccountedFor(history: seq<Event>)
    ensures Accounted(After(history))
  {
    if history != [] {
      RowsAreAccountedFor(history[..|history| - 1]);
      StepKeepsAccounted(After(history[..|history| - 1]), history[|history| - 1]);
    }
  }

  /** The event is an attempt at the row, queued at the time, whose early send comes to nothing. */
  predicate LosesRow(db: Db, e: Event, id: nat) {
    e.Attempt? && e.id == id && id in db.queue && Loses(e.fate)
  }

  ghost predicate LostAt(history: seq<Event>, n: nat, id: nat)
    requires n < |history|
  {
    LosesRow(After(history[..n]), history[n], id)
  }

  lemma LossStep(db: Db, e: Event, id: nat)
    requires Accounted(db)
    ensures IsLost(Apply(db, e), id) <==> IsLost(db, id) || LosesRow(db, e, id)
  {
  }

  /** In every run a row is lost exactly when some attempt at it committed its delete early and then came to
      nothing. */
  lemma {:induction false} LostIff(history: seq<Event>, id: nat)
    ensures IsLost(After(history), id) <==> exists n :: 0 <= n < |history| && LostAt(history, n, id)
  {
    hide Apply, LosesRow, IsLost, Accounted;
    if history == [] {
      NothingIsLost(id);
    } else {
      var last := |history| - 1;
      var init := history[..last];
      RowsAreAccountedFor(init);
      LostIff(init, id);
      LossStep(After(init), history[last], id);
      if n :| 0 <= n < last && LostAt(init, n, id) {
        assert init[..n] == history[..n];
        assert LostAt(history, n, id);
      }
      if LosesRow(After(init), history[last], id) {
        assert LostAt(history, last, id);
      }
      if n :| 0 <= n < |history| && LostAt(history, n, id) {
        if n < last {
          assert init[..n] == history[..n];
          assert LostAt(init, n, id);
        }
      }
    }
  }

  lemma NothingIsLost(id: nat)
    ensures !IsLost(Db(map[], 0, [], {}), id)
  {
  }

  /** In every run, with failures and stops anywhere: a row that was scheduled and not cancelled has at most
      one status, and none while it is queued; it has left the queue exactly when its status exists, unless
      an early send lost it. */
  lemma ExactlyOnce(history: seq<Event>, id: nat)
    requires id < After(history).nextId && id !in After(history).cancelled
    ensures var db := After(history);
      && multiset(db.statuses)[id] <= 1
      && (id in db.queue ==> multiset(db.statuses)[id] == 0)
      && ((id !in db.queue <==> multiset(db.statuses)[id] == 1)
          <==> !exists n :: 0 <= n < |history| && LostAt(history, n, id))
  {
    hide LostAt, Apply;
    RowsAreAccountedFor(history);
    LostIff(history, id);
    DistinctOnce(After(history).statuses, id);
    assert id in After(history).statuses <==> multiset(After(history).statuses)[id] > 0;
  }

  /** A status that exists stays, and its row never comes back. */
  lemma {:induction false} PublishedForGood(history: seq<Event>, m: nat, id: nat)
    requires m <= |history| && id in After(history[..m]).statuses
    ensures id in After(history).statuses && id !in After(history).queue
  {
    RowsAreAccountedFor(history);
    if m == |history| {
      assert history[..m] == history;
    } else {
      assert history[..|history| - 1][..m] == history[..m];
      PublishedForGood(history[..|history| - 1], m, id);
    }
  }

  // ---------------------------------------------------------------- retries

  /** One event's effect on the number of failures recorded for a row since it was (re)scheduled. */
  function Recount(before: Db, e: Event, id: nat, failures: nat): nat {
    match e
    case Schedule(_) => if before.nextId == id then 0 else failures
    case Reschedule(row, _) => if row == id then 0 else failures
    case Cancel(_) => failures
    case Attempt(row, _, fate) => failures + if row == id && (fate.Unresolved? || fate.SendRaises?) then 1 else 0
  }

  /** The failures recorded for a row since it was scheduled or last rescheduled. */
  function FailuresSince(history: seq<Event>, id: nat): nat {
    if history == [] then 0 else
      var n := |history| - 1;
      Recount(After(history[..n]), history[n], id, FailuresSince(history[..n], id))
  }

  ghost predicate TriesAre(db: Db, id: nat, failures: nat) {
    id in db.queue ==>
      && db.queue[id].tries == failures <= MAX_TRIES
      && (db.queue[id].nextTry == None <==> failures == MAX_TRIES)
  }

  lemma TriesStep(db: Db, e: Event, id: nat, failures: nat)
    requires Accounted(db) && Allowed(db, e) && TriesAre(db, id, failures)
    ensures TriesAre(Apply(db, e), id, Recount(db, e, id, failures))
  {
  }

  /** In every run a row counts the failures recorded since it was last (re)scheduled, at most five of
      them, and has no next try exactly after the fifth. */
  lemma {:induction false} FailuresAreBounded(history: seq<Event>, id: nat)
    requires AllAllowed(history)
    ensures TriesAre(After(history), id, FailuresSince(history, id))
  {
    hide Apply, Recount, TriesAre;
    if history == [] {
      NothingTried(id);
    } else {
      var n := |history| - 1;
      AllowedPrefix(history, n);
      RowsAreAccountedFor(history[..n]);
      FailuresAreBounded(history[..n], id);
      TriesStep(After(history[..n]), history[n], id, FailuresSince(history[..n], id));
    }
  }

  lemma NothingTried(id: nat)
    ensures TriesAre(Db(map[], 0, [], {}), id, 0)
  {
  }

  /** The row after failing at each of the times, none of which came before it was due. */
  function AfterFailures(row: Row, times: seq<int>): Row {
    if times == [] then row else AfterFailure(AfterFailures(row, times[..|times| - 1]), times[|times| - 1])
  }

  ghost predicate OnTime(row: Row, times: seq<int>) {
    forall n :: 0 <= n < |times| ==>
      var before := AfterFailures(row, times[..n]);
      before.nextTry.Some? && before.nextTry.value <= times[n]
  }

  /** The n-th failure of a row comes at least 5 * (2^(n-1) - 1) minutes after the first: 75 for the last. */
  lemma {:induction false} RetriesAreSpread(at: int, times: seq<int>)
    requires times != [] && OnTime(NewRow(at), times)
    ensures |times| <= MAX_TRIES && AfterFailures(NewRow(at), times).tries == |times|
    ensures times[|times| - 1] - times[0] >= RETRY_BASE_DELAY * (Pow2(|times| - 1) - 1)
  {
    var n := |times| - 1;
    assert times[..0] == [];
    if n > 0 {
      forall k | 0 <= k < n
        ensures var before := AfterFailures(NewRow(at), times[..n][..k]);
          before.nextTry.Some? && before.nextTry.value <= times[..n][k]
      {
        assert times[..n][..k] == times[..k];
      }
      RetriesAreSpread(at, times[..n]);
      assert AfterFailures(NewRow(at), times[..n]).nextTry.Some?;
    }
  }

  /** Five attempts in a row that do not stop the process settle a row: it is published or given up, or an
      early send lost it. */
  lemma {:induction false} AttemptsSettle(db: Db, id: nat, times: seq<int>, fates: seq<Fate>)
    requires |times| == |fates| && forall f <- fates :: !Stops(f)
    requires id in db.queue && db.queue[id].tries == 0
    ensures var after := AfterAttempts(db, seq(|fates|, _ => id), times, fates);
      if id in after.queue
      then after.queue[id].tries == |fates| && (|fates| >= MAX_TRIES ==> after.queue[id].nextTry == None)
      else id in after.statuses || exists f :: f in fates && Loses(f)
  {
    if fates != [] {
      var n := |fates| - 1;
      var ids := seq(|fates|, _ => id);
      assert ids[..n] == seq(n, _ => id);
      AttemptsSettle(db, id, times[..n], fates[..n]);
      assert fates[n] in fates && !Stops(fates[n]);
    }
  }
}
