/** The queue of received activities: one row at a time, earliest next try first. */
module IncomingQueue {
  import opened Base
  import OutgoingQueue

  const MAX_RETRIES := 8

  /** A row; it can be processed only when it has both an object and a sender. */
  datatype Row = Row(
    id: nat, hasObject: bool, hasSender: bool, tries: nat, nextTry: Option<int>, isProcessed: bool, isErrored: bool)
  {
    predicate Processable() {
      hasObject && hasSender
    }

    predicate Settled() {
      isProcessed || isErrored
    }
  }

  /** What becomes of an attempt: the inbox takes the activity, raises or times out, or the process stops
      after the try was counted. */
  datatype Fate = Succeeds | Raises | Stops

  // ---------------------------------------------------------------- one attempt

  predicate Due(r: Row, now: int) {
    r.nextTry.Some? && r.nextTry.value <= now && !r.isErrored && !r.isProcessed
  }

  /** The order the queue is read in. */
  predicate Earlier(a: Row, b: Row) {
    a.nextTry.Some? && b.nextTry.Some? &&
    (a.nextTry.value < b.nextTry.value || (a.nextTry.value == b.nextTry.value && a.id < b.id))
  }

  /** The row the next attempt takes: among the due ones, none is earlier. */
  function FetchNext(rows: seq<Row>, now: int): (k: Option<nat>)
    ensures k.None? ==> forall i :: 0 <= i < |rows| ==> !Due(rows[i], now)
    ensures k.Some? ==> k.value < |rows| && Due(rows[k.value], now)
    ensures k.Some? ==> forall i :: 0 <= i < |rows| && Due(rows[i], now) ==> !Earlier(rows[i], rows[k.value])
  {
    if rows == [] then None
    else
      var n := |rows| - 1;
      var rest := FetchNext(rows[..n], now);
      assert forall i :: 0 <= i < n ==> rows[i] == rows[..n][i];
      if !Due(rows[n], now) then rest
      else if rest.Some? && !Earlier(rows[n], rows[rest.value]) then rest
      else Some(n)
  }

  function GivenNextTry(r: Row, now: int): Row
    requires r.tries >= 1
  {
    if r.tries >= MAX_RETRIES then r.(isErrored := true, nextTry := None)
    else r.(nextTry := Some(now + OutgoingQueue.BackoffDelay(r.tries)))
  }

  /** A row after an attempt whose failure, if any, was recorded at the given time. */
  function Attempted(r: Row, fate: Fate, now: int): Row {
    var tried := r.(tries := r.tries + 1);
    if fate.Stops? || !r.Processable() then tried
    else if fate.Succeeds? then tried.(isProcessed := true)
    else GivenNextTry(tried, now)
  }

  function Stepped(rows: seq<Row>, now: int, fate: Fate, recorded: int): seq<Row> {
    match FetchNext(rows, now)
    case None => rows
    case Some(k) => rows[k := Attempted(rows[k], fate, recorded)]
  }

  /** The worker: the rows as committed; a process that stops leaves only what was committed. */
  class Worker {
    var rows: seq<Row>

    method SetNextTry(k: nat, now: int)
      requires k < |rows| && rows[k].tries >= 1
      modifies this
      ensures rows == old(rows)[k := GivenNextTry(old(rows)[k], now)]
    {
      if rows[k].tries >= MAX_RETRIES {
        rows := rows[k := rows[k].(isErrored := true, nextTry := None)];
      } else {
        rows := rows[k := rows[k].(nextTry := Some(now + OutgoingQueue.BackoffDelay(rows[k].tries)))];
      }
    }

    method ProcessNext(now: int, fate: Fate, recorded: int) returns (fetched: bool)
      modifies this
      ensures rows == Stepped(old(rows), now, fate, recorded)
      ensures fetched <==> exists r :: r in old(rows) && Due(r, now)
    {
      var next := FetchNext(rows, now);
      if next.None? {
        return false;
      }
      var k := next.value;
      assert rows[k] in rows;
      rows := rows[k := rows[k].(tries := rows[k].tries + 1)];
      if fate.Stops? {
        return true;
      }
      if rows[k].hasObject && rows[k].hasSender {
        if fate.Raises? {
          SetNextTry(k, recorded);
        } else {
          rows := rows[k := rows[k].(isProcessed := true)];
        }
      }
      return true;
    }
  }

  /** A row is fetched exactly when it is open and its next try has come, and every other such row has a later
      next try, or the same one and a larger id. */
  lemma FetchedIff(rows: seq<Row>, now: int, k: nat)
    requires k < |rows| && forall i, j :: 0 <= i < j < |rows| ==> rows[i].id != rows[j].id
    ensures var open := (r: Row) => !r.isProcessed && !r.isErrored && r.nextTry.Some? && r.nextTry.value <= now;
      FetchNext(rows, now) == Some(k) <==>
        && open(rows[k])
        && forall i :: 0 <= i < |rows| && i != k && open(rows[i]) ==>
             || rows[k].nextTry.value < rows[i].nextTry.value
             || (rows[k].nextTry.value == rows[i].nextTry.value && rows[k].id < rows[i].id)
  {
    var found := FetchNext(rows, now);
    if found.Some? && Due(rows[k], now) && found.value != k {
      assert !Earlier(rows[k], rows[found.value]);
      assert rows[k].id != rows[found.value].id;
    }
  }

  /** What an attempt writes into the fetched row: its n-th try is counted before anything else; then a row with
      object and sender is processed, or waits 2^n seconds, or is given up with the eighth failure. No other row
      is written. */
  lemma AttemptWrites(rows: seq<Row>, now: int, fate: Fate, recorded: int, i: nat)
    requires i < |rows|
    ensures var after, r := Stepped(rows, now, fate, recorded), rows[i];
      var n := r.tries + 1;
      var tried := FetchNext(rows, now) == Some(i);
      var ran := tried && fate != Stops && r.hasObject && r.hasSender;
      && |after| == |rows|
      && after[i] == r.(tries := if tried then n else r.tries,
                        isProcessed := r.isProcessed || (ran && fate == Succeeds),
                        isErrored := r.isErrored || (ran && fate == Raises && n >= 8),
                        nextTry := if ran && fate == Raises
                                   then if n >= 8 then None else Some(recorded + Pow2(n) * 1_000_000)
                                   else r.nextTry)
  {
  }

  // ---------------------------------------------------------------- runs

  predicate NewRow(r: Row) {
    r.tries == 0 && !r.isProcessed && !r.isErrored && r.nextTry.Some?
  }

  /** A row arrives open, never tried and scheduled. */
  lemma NewRowIff(r: Row)
    ensures NewRow(r) <==>
      r == Row(r.id, r.hasObject, r.hasSender, 0, r.nextTry, false, false) && r.nextTry != None
  {
  }

  /** The worker makes an attempt, or an activity arrives. */
  datatype Step =
    | Attempt(now: int, fate: Fate, recorded: int)
    | Arrive(row: Row)

  function Run(rows: seq<Row>, steps: seq<Step>): seq<Row> {
    if steps == [] then rows else
      var before := Run(rows, steps[..|steps| - 1]);
      match steps[|steps| - 1]
      case Attempt(now, fate, recorded) => Stepped(before, now, fate, recorded)
      case Arrive(row) => before + [row]
  }

  /** The rows that arrive, in order; row k of a run started from no rows is the k-th of them. */
  function Arrivals(steps: seq<Step>): seq<Row> {
    if steps == [] then [] else
      Arrivals(steps[..|steps| - 1]) + if steps[|steps| - 1].Arrive? then [steps[|steps| - 1].row] else []
  }

  /** The attempts of a run that were cut short, for the row at k. */
  function StopsAt(rows: seq<Row>, steps: seq<Step>, k: nat): nat {
    if steps == [] then 0 else
      var n := |steps| - 1;
      var s := steps[n];
      StopsAt(rows, steps[..n], k)
        + if s.Attempt? && s.fate.Stops? && FetchNext(Run(rows, steps[..n]), s.now) == Some(k) then 1 else 0
  }

  /** A run goes on step by step: an attempt works on what the steps before it left, and counts as cut short for the
      row it fetched; an arriving row is appended. */
  lemma OneMoreStep(rows: seq<Row>, steps: seq<Step>, s: Step, k: nat)
    ensures Run(rows, []) == rows && StopsAt(rows, [], k) == 0 && Arrivals([]) == []
    ensures s.Attempt? ==>
      var before := Run(rows, steps);
      && Run(rows, steps + [s]) == Stepped(before, s.now, s.fate, s.recorded)
      && Arrivals(steps + [s]) == Arrivals(steps)
      && StopsAt(rows, steps + [s], k)
         == StopsAt(rows, steps, k) + if s.fate == Stops && FetchNext(before, s.now) == Some(k) then 1 else 0
    ensures s.Arrive? ==>
      && Run(rows, steps + [s]) == Run(rows, steps) + [s.row] && Arrivals(steps + [s]) == Arrivals(steps) + [s.row]
      && StopsAt(rows, steps + [s], k) == StopsAt(rows, steps, k)
  {
    assert (steps + [s])[..|steps|] == steps;
  }

  ghost predicate Keeps(before: Row, after: Row, stops: nat) {
    && after.id == before.id && after.hasObject == before.hasObject && after.hasSender == before.hasSender
    && !(after.isProcessed && after.isErrored)
    && (after.nextTry == None <==> after.isErrored)
    && (after.isErrored ==> after.tries >= MAX_RETRIES)
    && (before.Processable() ==> after.tries <= MAX_RETRIES + stops)
    && (before.Processable() && !after.Settled() && stops == 0 ==> after.tries < MAX_RETRIES)
  }

  lemma AttemptKeeps(before: Row, r: Row, fate: Fate, now: int, stops: nat)
    requires Keeps(before, r, stops) && !r.Settled()
    requires before.Processable() ==> r.tries < MAX_RETRIES + stops
    ensures Keeps(before, Attempted(r, fate, now), stops + if fate.Stops? then 1 else 0)
  {
  }

  /** While a row is unsettled each stop can have cost it one try beyond the limit, and no more. */
  ghost predicate HasTriesLeft(r: Row, stops: nat) {
    r.Processable() && !r.Settled() ==> r.tries < MAX_RETRIES + stops
  }

  lemma AttemptLeavesTries(r: Row, fate: Fate, now: int, stops: nat)
    requires HasTriesLeft(r, stops)
    ensures HasTriesLeft(Attempted(r, fate, now), stops + if fate.Stops? then 1 else 0)
  {
  }

  ghost predicate AllNew(rows: seq<Row>) {
    forall r <- rows :: NewRow(r)
  }

  lemma {:induction false} RunGrows(rows: seq<Row>, steps: seq<Step>)
    ensures |Run(rows, steps)| == |rows| + |Arrivals(steps)|
  {
    if steps != [] {
      RunGrows(rows, steps[..|steps| - 1]);
    }
  }

  /** In every run, with activities arriving at any point: a row never is both processed and given up, it has
      a next try until it is given up, which takes eight tries, and no processable row is tried more than
      eight times plus once for every time the process stopped in one of its attempts. */
  lemma {:induction false} RunKeeps(rows: seq<Row>, steps: seq<Step>, k: nat)
    requires AllNew(rows + Arrivals(steps)) && k < |rows + Arrivals(steps)|
    ensures |Run(rows, steps)| == |rows + Arrivals(steps)|
    ensures Keeps((rows + Arrivals(steps))[k], Run(rows, steps)[k], StopsAt(rows, steps, k))
    ensures HasTriesLeft(Run(rows, steps)[k], StopsAt(rows, steps, k))
  {
    hide Keeps, HasTriesLeft, NewRow, Attempted;
    RunGrows(rows, steps);
    var row := (rows + Arrivals(steps))[k];
    assert row in rows + Arrivals(steps);
    if steps == [] {
      NewRowKeeps(row);
    } else {
      var n := |steps| - 1;
      var before, s := Run(rows, steps[..n]), steps[n];
      var known := rows + Arrivals(steps[..n]);
      RunGrows(rows, steps[..n]);
      assert rows + Arrivals(steps) == known + if s.Arrive? then [s.row] else [];
      if k == |known| {
        NotYetStopped(rows, steps, k);
        NewRowKeeps(row);
      } else {
        assert forall r <- known :: r in rows + Arrivals(steps);
        RunKeeps(rows, steps[..n], k);
        if s.Attempt? && FetchNext(before, s.now) == Some(k) {
          KeepsTries(row, before[k], StopsAt(rows, steps[..n], k));
          AttemptKeeps(row, before[k], s.fate, s.recorded, StopsAt(rows, steps[..n], k));
          AttemptLeavesTries(before[k], s.fate, s.recorded, StopsAt(rows, steps[..n], k));
        }
      }
    }
  }

  /** A row that is not there yet has had no attempt. */
  lemma {:induction false} NotYetStopped(rows: seq<Row>, steps: seq<Step>, k: nat)
    requires steps != [] && |Run(rows, steps[..|steps| - 1])| <= k
    ensures StopsAt(rows, steps, k) == 0
  {
    var n := |steps| - 1;
    if n > 0 {
      RunGrows(rows, steps[..n]);
      RunGrows(rows, steps[..n][..n - 1]);
      NotYetStopped(rows, steps[..n], k);
    }
  }

  lemma NewRowKeeps(r: Row)
    requires NewRow(r)
    ensures Keeps(r, r, 0) && HasTriesLeft(r, 0)
  {
  }

  lemma KeepsTries(before: Row, r: Row, stops: nat)
    requires Keeps(before, r, stops) && HasTriesLeft(r, stops) && !r.Settled()
    ensures before.Processable() ==> r.tries < MAX_RETRIES + stops
  {
  }

  // ---------------------------------------------------------------- the queue drains

  /** How many more attempts a processable row can take. */
  function AttemptsLeft(): Row -> int {
    (r: Row) => if r.Settled() then 0 else Max(1, MAX_RETRIES - r.tries)
  }

  /** An attempt at a processable row that is not cut short uses one of them up. */
  lemma StepLowersWork(rows: seq<Row>, now: int, fate: Fate, recorded: int)
    requires forall r <- rows :: r.Processable()
    requires FetchNext(rows, now).Some? && !fate.Stops?
    ensures Sum(AttemptsLeft(), Stepped(rows, now, fate, recorded)) < Sum(AttemptsLeft(), rows)
    ensures forall r <- Stepped(rows, now, fate, recorded) :: r.Processable()
  {
    var k := FetchNext(rows, now).value;
    assert rows[k] in rows;
    SumUpdate(AttemptsLeft(), rows, k, Attempted(rows[k], fate, recorded));
  }

  function IsAttempt(): Step -> bool {
    (s: Step) => s.Attempt?
  }

  /** Every attempt of the run finds a row and is not cut short. */
  ghost predicate Busy(rows: seq<Row>, steps: seq<Step>) {
    forall n :: 0 <= n < |steps| && steps[n].Attempt? ==>
      !steps[n].fate.Stops? && FetchNext(Run(rows, steps[..n]), steps[n].now).Some?
  }

  /** Processable rows are all settled after at most eight attempts for each of them, whenever they arrive. */
  lemma {:induction false} QueueDrains(rows: seq<Row>, steps: seq<Step>)
    requires (forall r <- rows + Arrivals(steps) :: r.Processable()) && Busy(rows, steps)
    ensures |Filter(IsAttempt(), steps)|
      <= Sum(AttemptsLeft(), rows + Arrivals(steps)) - Sum(AttemptsLeft(), Run(rows, steps))
    ensures forall r <- Run(rows, steps) :: r.Processable()
  {
    hide FetchNext, Filter;
    if steps == [] {
      FilterNothing(IsAttempt(), steps);
      assert rows + Arrivals(steps) == rows;
    } else {
      var n := |steps| - 1;
      var s := steps[n];
      var known := rows + Arrivals(steps[..n]);
      assert rows + Arrivals(steps) == known + if s.Arrive? then [s.row] else [];
      assert forall r <- known :: r in rows + Arrivals(steps);
      forall m | 0 <= m < n
        ensures steps[..n][..m] == steps[..m] && steps[..n][m] == steps[m]
      {
      }
      QueueDrains(rows, steps[..n]);
      assert steps == steps[..n] + [s];
      FilterSnoc(IsAttempt(), steps[..n], s);
      if s.Attempt? {
        assert rows + Arrivals(steps) == known;
        StepLowersWork(Run(rows, steps[..n]), s.now, s.fate, s.recorded);
      } else {
        SumConcat(AttemptsLeft(), known, [s.row]);
        SumConcat(AttemptsLeft(), Run(rows, steps[..n]), [s.row]);
        assert s.row in rows + Arrivals(steps);
      }
    }
  }

  // ---------------------------------------------------------------- a row that cannot be processed

  /** A due row that no row comes before, and that lacks its object or its sender. */
  ghost predicate Blocks(rows: seq<Row>, k: nat) {
    && k < |rows|
    && rows[k].nextTry.Some? && !rows[k].Settled() && !rows[k].Processable()
    && forall i :: 0 <= i < |rows| && i != k && rows[i].nextTry.Some? ==> Earlier(rows[k], rows[i])
  }

  /** Every row that arrives comes after the one at the head. */
  ghost predicate ArriveLater(head: Row, steps: seq<Step>) {
    forall s <- steps :: s.Arrive? ==> NewRow(s.row) && Earlier(head, s.row)
  }

  lemma StillBlocks(rows: seq<Row>, k: nat, now: int, fate: Fate, recorded: int)
    requires Blocks(rows, k)
    ensures var after := Stepped(rows, now, fate, recorded);
      && |after| == |rows| && after == rows[k := after[k]]
      && after[k] == rows[k].(tries := after[k].tries)
      && (FetchNext(rows, now) == None || FetchNext(rows, now) == Some(k))
  {
    var next := FetchNext(rows, now);
    if next.Some? && next.value != k {
      assert Earlier(rows[k], rows[next.value]);
      assert Due(rows[k], now);
    }
  }

  /** Such a row is taken again and again, and nothing behind it ever is: in every run every other row, there
      from the start or arriving later, stays as it was. */
  lemma {:induction false} HeadBlocksTheQueue(rows: seq<Row>, steps: seq<Step>, k: nat)
    requires Blocks(rows, k) && ArriveLater(rows[k], steps)
    ensures var after := Run(rows, steps);
      && k < |after| && Blocks(after, k)
      && after[k] == rows[k].(tries := after[k].tries)
      && after == rows[k := after[k]] + Arrivals(steps)
  {
    hide FetchNext, Blocks, NewRow, Stepped, Earlier;
    BlockedRow(rows, k);
    if steps == [] {
      assert rows == rows[k := rows[k]] + [];
    } else {
      var n := |steps| - 1;
      var before, s := Run(rows, steps[..n]), steps[n];
      assert forall t <- steps[..n] :: t in steps;
      HeadBlocksTheQueue(rows, steps[..n], k);
      assert s in steps;
      if s.Attempt? {
        StillBlocks(before, k, s.now, s.fate, s.recorded);
        BlocksAfter(before, Run(rows, steps), k);
      } else {
        BlocksLonger(before, rows[k], s.row, k);
      }
    }
  }

  lemma BlockedRow(rows: seq<Row>, k: nat)
    requires Blocks(rows, k)
    ensures k < |rows|
  {
  }

  lemma BlocksAfter(rows: seq<Row>, after: seq<Row>, k: nat)
    requires Blocks(rows, k) && |after| == |rows| && after == rows[k := after[k]]
    requires after[k] == rows[k].(tries := after[k].tries)
    ensures Blocks(after, k)
  {
    forall i | 0 <= i < |after| && i != k && after[i].nextTry.Some?
      ensures Earlier(after[k], after[i])
    {
      assert Earlier(rows[k], rows[i]);
    }
  }

  lemma BlocksLonger(rows: seq<Row>, head: Row, row: Row, k: nat)
    requires Blocks(rows, k) && rows[k] == head.(tries := rows[k].tries) && Earlier(head, row)
    ensures Blocks(rows + [row], k)
  {
    forall i | 0 <= i < |rows| && i != k && rows[i].nextTry.Some?
      ensures Earlier(rows[k], rows[i])
    {
    }
  }

  /** An attempt that is not cut short settles the row or moves its next try exactly when the row can be
      processed. */
  lemma AttemptMovesIff(r: Row, fate: Fate, now: int)
    requires Due(r, now) && !fate.Stops?
    ensures r.Processable() <==>
      var after := Attempted(r, fate, now);
      after.Settled() || (after.nextTry.Some? && after.nextTry.value > r.nextTry.value)
  {
  }
}
