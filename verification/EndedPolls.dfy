/** The sweep that notifies about ended polls; a notification is its own watermark, as long as it exists. */
module EndedPolls {
  import opened Base

  /** What the JSON holds under endTime: null or nothing, a value that is not a time, or a time. */
  datatype EndTime = Missing | NotATime | At(time: int)

  datatype Table = Outbox | Inbox

  datatype Ref = Ref(table: Table, id: nat)

  /** A row of either table. Only others' polls carry our vote; for theirs the query does not look at
      `isDeleted`. */
  datatype Row = Row(ref: Ref, isQuestion: bool, isDeleted: bool, isVoted: bool, endTime: EndTime)

  predicate IsCandidate(r: Row, notified: seq<Ref>) {
    && r.isQuestion
    && (if r.ref.table == Outbox then !r.isDeleted else r.isVoted)
    && r.endTime != Missing
    && r.ref !in notified
  }

  function Candidate(notified: seq<Ref>): Row -> bool {
    (r: Row) => IsCandidate(r, notified)
  }

  /** A time that cannot be read never ends a poll. */
  predicate IsEnded(r: Row, now: int) {
    r.endTime.At? && now > r.endTime.time
  }

  /** A candidate is a question with an end time and no notification yet: a live one of ours, or one of someone
      else's that we voted in, deleted or not. It has ended once its time, if it is one, has passed. */
  lemma CandidateIff(r: Row, notified: seq<Ref>, now: int)
    ensures IsCandidate(r, notified) <==>
      && r.isQuestion && !r.endTime.Missing? && (forall ref <- notified :: ref != r.ref)
      && (r.ref.table == Outbox ==> !r.isDeleted) && (r.ref.table == Inbox ==> r.isVoted)
    ensures IsEnded(r, now) <==> exists t :: r.endTime == At(t) && t < now
  {
  }

  /** A candidate as the sweep sees it: whether it had ended when the clock was read for it. */
  datatype Check = Check(ref: Ref, ended: bool)

  function Checks(candidates: seq<Row>, clock: seq<int>): seq<Check>
    requires |clock| >= |candidates|
  {
    seq(|candidates|, i requires 0 <= i < |candidates| => Check(candidates[i].ref, IsEnded(candidates[i], clock[i])))
  }

  /** The references of the first ended ones, as far as the budget goes. */
  function Emitted(checks: seq<Check>, budget: int): seq<Ref>
    decreases |checks|
  {
    if checks == [] || budget <= 0 then []
    else if checks[0].ended then [checks[0].ref] + Emitted(checks[1..], budget - 1)
    else Emitted(checks[1..], budget)
  }

  /** Our polls come before the ones we voted in, each table in id order. */
  datatype Tables = Tables(own: seq<Row>, voted: seq<Row>)

  function Candidates(t: Tables, notified: seq<Ref>): seq<Row> {
    Filter(Candidate(notified), t.own) + Filter(Candidate(notified), t.voted)
  }

  function Emissions(t: Tables, notified: seq<Ref>, clock: seq<int>, limit: int, enabled: bool): seq<Ref>
    requires |clock| >= |Candidates(t, notified)|
  {
    if enabled then Emitted(Checks(Candidates(t, notified), clock), limit) else []
  }

  function Swept(t: Tables, notified: seq<Ref>, clock: seq<int>, limit: int, enabled: bool): seq<Ref>
    requires |clock| >= |Candidates(t, notified)|
  {
    notified + Emissions(t, notified, clock, limit, enabled)
  }

  lemma {:induction false} EmittedConcat(a: seq<Check>, b: seq<Check>, budget: int)
    ensures Emitted(a + b, budget) == Emitted(a, budget) + Emitted(b, budget - |Emitted(a, budget)|)
    decreases |a|
  {
    if a == [] {
      assert a + b == b;
    } else {
      assert (a + b)[1..] == a[1..] + b;
      if budget > 0 {
        EmittedConcat(a[1..], b, if a[0].ended then budget - 1 else budget);
      }
    }
  }

  /** Two loops that share a budget emit what one loop over both lists would. */
  lemma OneAfterTheOther(own: seq<Row>, voted: seq<Row>, clock: seq<int>, limit: int)
    requires |clock| >= |own + voted|
    ensures var first := Emitted(Checks(own, clock[..|own|]), limit);
      Emitted(Checks(own + voted, clock), limit)
        == first + Emitted(Checks(voted, clock[|own|..]), limit - |first|)
  {
    assert Checks(own + voted, clock) == Checks(own, clock[..|own|]) + Checks(voted, clock[|own|..]);
    EmittedConcat(Checks(own, clock[..|own|]), Checks(voted, clock[|own|..]), limit);
  }

  class Notifications {
    var notified: seq<Ref>

    /** One of the sweep's two loops, over the candidates of one table. */
    method NotifyAbout(candidates: seq<Row>, clock: seq<int>, budget: int) returns (emitted: nat)
      requires |clock| >= |candidates|
      modifies this
      ensures notified == old(notified) + Emitted(Checks(candidates, clock), budget)
      ensures emitted == |Emitted(Checks(candidates, clock), budget)|
    {
      emitted := 0;
      ghost var checks, done := Checks(candidates, clock), [];
      var n := 0;
      while n < |candidates|
        invariant n <= |candidates| && emitted == |done|
        invariant notified == old(notified) + done
        invariant Emitted(checks, budget) == done + Emitted(checks[n..], budget - emitted)
      {
        if emitted >= budget {
          break;
        }
        if IsEnded(candidates[n], clock[n]) {
          notified := notified + [candidates[n].ref];
          emitted := emitted + 1;
          done := done + [candidates[n].ref];
        }
        n := n + 1;
      }
    }

    method NotifyEndedPolls(t: Tables, clock: seq<int>, limit: int, enabled: bool) returns (emitted: nat)
      requires |clock| >= |Candidates(t, notified)|
      modifies this
      ensures notified == Swept(t, old(notified), clock, limit, enabled)
      ensures |notified| == |old(notified)| + emitted
    {
      hide Checks, Emitted, Filter;
      if !enabled {
        return 0;
      }
      var own := Filter(Candidate(notified), t.own);
      var voted := Filter(Candidate(notified), t.voted);
      var first := NotifyAbout(own, clock[..|own|], limit);
      var second := NotifyAbout(voted, clock[|own|..], limit - first);
      emitted := first + second;
      OneAfterTheOther(own, voted, clock, limit);
    }
  }

  // ---------------------------------------------------------------- one pass

  function Done(): Check -> bool {
    (c: Check) => c.ended
  }

  /** A pass writes as many notifications as there are ended candidates, up to its limit: polls that have
      not ended use none of it. */
  lemma {:induction false} EmitsUpToTheLimit(checks: seq<Check>, limit: int)
    ensures |Emitted(checks, limit)| == Min(Max(limit, 0), |Filter(Done(), checks)|)
    decreases |checks|
  {
    if checks != [] {
      EmitsUpToTheLimit(checks[1..], if checks[0].ended then limit - 1 else limit);
      EmitsUpToTheLimit(checks[1..], limit);
    }
  }

  function Refs(checks: seq<Check>): (refs: seq<Ref>)
    ensures |refs| == |checks| && forall i :: 0 <= i < |checks| ==> refs[i] == checks[i].ref
  {
    seq(|checks|, i requires 0 <= i < |checks| => checks[i].ref)
  }

  /** And it writes them in order: about the first ended candidates, each with its own reading of the clock. */
  lemma {:induction false} EmitsTheFirst(checks: seq<Check>, limit: nat)
    ensures var ended := Refs(Filter(Done(), checks));
      Emitted(checks, limit) == if |ended| <= limit then ended else ended[..limit]
    decreases |checks|
  {
    if checks != [] {
      if limit > 0 {
        EmitsTheFirst(checks[1..], if checks[0].ended then limit - 1 else limit);
      }
      if checks[0].ended {
        assert Refs(Filter(Done(), checks)) == [checks[0].ref] + Refs(Filter(Done(), checks[1..]));
      }
    }
  }

  lemma ChecksAre(candidates: seq<Row>, clock: seq<int>, i: nat)
    requires i < |candidates| <= |clock|
    ensures Checks(candidates, clock)[i].ref == candidates[i].ref
    ensures Done()(Checks(candidates, clock)[i]) <==> IsEnded(candidates[i], clock[i])
  {
  }

  ghost predicate DistinctRefs(rows: seq<Row>) {
    forall i, j :: 0 <= i < j < |rows| ==> rows[i].ref != rows[j].ref
  }

  ghost predicate WellFormed(t: Tables) {
    && DistinctRefs(t.own) && DistinctRefs(t.voted)
    && (forall r <- t.own :: r.ref.table == Outbox)
    && (forall r <- t.voted :: r.ref.table == Inbox)
  }

  lemma {:induction false} FilterDistinctRefs(p: Row -> bool, rows: seq<Row>)
    requires DistinctRefs(rows)
    ensures DistinctRefs(Filter(p, rows))
  {
    if rows != [] {
      FilterDistinctRefs(p, rows[1..]);
      FilterMembers(p, rows[1..]);
      forall r | r in rows[1..]
        ensures r.ref != rows[0].ref
      {
        var i :| 0 <= i < |rows| - 1 && rows[1..][i] == r;
        assert rows[i + 1] == r;
      }
    }
  }

  lemma CandidatesAreDistinct(t: Tables, notified: seq<Ref>)
    requires WellFormed(t)
    ensures DistinctRefs(Candidates(t, notified))
    ensures forall r <- Candidates(t, notified) :: r.ref !in notified
  {
    FilterDistinctRefs(Candidate(notified), t.own);
    FilterDistinctRefs(Candidate(notified), t.voted);
    FilterMembers(Candidate(notified), t.own);
    FilterMembers(Candidate(notified), t.voted);
    var own, voted := Filter(Candidate(notified), t.own), Filter(Candidate(notified), t.voted);
    forall i, j | 0 <= i < |own| && 0 <= j < |voted|
      ensures own[i].ref != voted[j].ref
    {
      assert own[i] in own && voted[j] in voted;
    }
  }

  ghost predicate DistinctChecks(checks: seq<Check>) {
    forall i, j :: 0 <= i < j < |checks| ==> checks[i].ref != checks[j].ref
  }

  lemma {:induction false} EmittedIsDistinct(checks: seq<Check>, budget: int)
    requires DistinctChecks(checks)
    ensures Distinct(Emitted(checks, budget))
    ensures forall ref <- Emitted(checks, budget) :: exists i :: 0 <= i < |checks| && checks[i] == Check(ref, true)
    decreases |checks|
  {
    if checks != [] && budget > 0 {
      var left := if checks[0].ended then budget - 1 else budget;
      EmittedIsDistinct(checks[1..], left);
      forall ref | ref in Emitted(checks[1..], left)
        ensures ref != checks[0].ref && exists i :: 0 <= i < |checks| && checks[i] == Check(ref, true)
      {
        var i :| 0 <= i < |checks| - 1 && checks[1..][i] == Check(ref, true);
        assert checks[i + 1] == Check(ref, true);
      }
    }
  }

  /** A pass writes nothing when the type is disabled, and about our polls before those of others. */
  lemma OwnPollsFirst(t: Tables, notified: seq<Ref>, clock: seq<int>, limit: nat, enabled: bool)
    requires WellFormed(t) && |clock| >= |Candidates(t, notified)|
    ensures var written := Emissions(t, notified, clock, limit, enabled);
      && (!enabled ==> written == [])
      && forall i, j :: 0 <= i < j < |written| ==> written[i].table == Outbox || written[j].table == Inbox
  {
    hide WellFormed, IsCandidate;
    if enabled {
      var own, voted := Filter(Candidate(notified), t.own), Filter(Candidate(notified), t.voted);
      var mine, theirs := Checks(own, clock[..|own|]), Checks(voted, clock[|own|..]);
      var first := Emitted(mine, limit);
      OneAfterTheOther(own, voted, clock, limit);
      TableOf(t.own, notified, clock[..|own|], limit, Outbox, t);
      TableOf(t.voted, notified, clock[|own|..], limit - |first|, Inbox, t);
    }
  }

  lemma TableOf(rows: seq<Row>, notified: seq<Ref>, clock: seq<int>, budget: int, table: Table, t: Tables)
    requires WellFormed(t) && ((table == Outbox && rows == t.own) || (table == Inbox && rows == t.voted))
    requires |clock| >= |Filter(Candidate(notified), rows)|
    ensures forall ref <- Emitted(Checks(Filter(Candidate(notified), rows), clock), budget) :: ref.table == table
  {
    var candidates := Filter(Candidate(notified), rows);
    var checks := Checks(candidates, clock);
    FilterMembers(Candidate(notified), rows);
    FilterDistinctRefs(Candidate(notified), rows);
    EmittedIsDistinct(checks, budget);
    forall ref | ref in Emitted(checks, budget)
      ensures ref.table == table
    {
      var i :| 0 <= i < |checks| && checks[i] == Check(ref, true);
      assert candidates[i] in candidates;
    }
  }

  // ---------------------------------------------------------------- runs

  /** A sweep, over the tables as they are by then and with its readings of the clock; or the deletion of the
      notifications about some polls, by a client that clears or dismisses them or with a deleted post. */
  datatype Event =
    | Sweep(tables: Tables, clock: seq<int>, limit: int, enabled: bool)
    | Remove(refs: set<Ref>)

  /** The polls with a notification row; every notification ever written; every row ever deleted. */
  datatype State = State(notified: seq<Ref>, written: seq<Ref>, removed: seq<Ref>)

  const NOTHING := State([], [], [])

  function In(refs: set<Ref>): Ref -> bool {
    (ref: Ref) => ref in refs
  }

  function NotIn(refs: set<Ref>): Ref -> bool {
    (ref: Ref) => ref !in refs
  }

  /** A sweep that stops before it has looked at every candidate is rolled back and writes nothing. */
  function Emits(e: Event, notified: seq<Ref>): seq<Ref>
    requires e.Sweep?
  {
    if |e.clock| >= |Candidates(e.tables, notified)|
    then Emissions(e.tables, notified, e.clock, e.limit, e.enabled) else []
  }

  function Apply(s: State, e: Event): State {
    match e
    case Sweep(_, _, _, _) =>
      var emitted := Emits(e, s.notified);
      State(s.notified + emitted, s.written + emitted, s.removed)
    case Remove(refs) =>
      State(Filter(NotIn(refs), s.notified), s.written, s.removed + Filter(In(refs), s.notified))
  }

  function After(start: State, events: seq<Event>): State {
    if events == [] then start else
      Apply(After(start, events[..|events| - 1]), events[|events| - 1])
  }

  ghost predicate WellFormedSweeps(events: seq<Event>) {
    forall e <- events :: e.Sweep? ==> WellFormed(e.tables)
  }

  function Times(refs: seq<Ref>, ref: Ref): nat {
    multiset(refs)[ref]
  }

  /** A poll has at most one row, and was notified about once for it and once for each row it lost. */
  ghost predicate Balanced(s: State) {
    && Distinct(s.notified)
    && forall ref :: Times(s.written, ref) == Times(s.removed, ref) + if ref in s.notified then 1 else 0
  }

  lemma TimesConcat(a: seq<Ref>, b: seq<Ref>, ref: Ref)
    ensures Times(a + b, ref) == Times(a, ref) + Times(b, ref)
  {
  }

  lemma TimesOfDistinct(refs: seq<Ref>, ref: Ref)
    requires Distinct(refs)
    ensures Times(refs, ref) == if ref in refs then 1 else 0
  {
    DistinctOnce(refs, ref);
    assert ref in refs <==> ref in multiset(refs);
  }

  /** What a sweep writes has no row yet, and is written once. */
  lemma EmitsNews(e: Event, notified: seq<Ref>)
    requires e.Sweep? && WellFormed(e.tables)
    ensures Distinct(Emits(e, notified))
    ensures forall ref <- Emits(e, notified) :: ref !in notified
  {
    if e.enabled && |e.clock| >= |Candidates(e.tables, notified)| {
      var candidates := Candidates(e.tables, notified);
      var checks := Checks(candidates, e.clock);
      CandidatesAreDistinct(e.tables, notified);
      EmittedIsDistinct(checks, e.limit);
      forall ref | ref in Emitted(checks, e.limit)
        ensures ref !in notified
      {
        var i :| 0 <= i < |checks| && checks[i] == Check(ref, true);
        assert candidates[i] in candidates;
      }
    }
  }

  lemma SweepKeepsBalance(s: State, e: Event)
    requires Balanced(s) && e.Sweep? && WellFormed(e.tables)
    ensures Balanced(Apply(s, e))
  {
    hide Times, Emits, Distinct;
    var emitted := Emits(e, s.notified);
    EmitsNews(e, s.notified);
    DistinctConcat(s.notified, emitted);
    forall ref
      ensures Times(s.written + emitted, ref) == Times(s.removed, ref) + if ref in s.notified + emitted then 1 else 0
    {
      TimesConcat(s.written, emitted, ref);
      TimesOfDistinct(emitted, ref);
    }
  }

  lemma RemoveKeepsBalance(s: State, e: Event)
    requires Balanced(s) && e.Remove?
    ensures Balanced(Apply(s, e))
  {
    hide Times, Filter, Distinct;
    var gone, kept := Filter(In(e.refs), s.notified), Filter(NotIn(e.refs), s.notified);
    FilterDistinct(In(e.refs), s.notified);
    FilterDistinct(NotIn(e.refs), s.notified);
    FilterMembers(In(e.refs), s.notified);
    FilterMembers(NotIn(e.refs), s.notified);
    forall ref
      ensures Times(s.written, ref) == Times(s.removed + gone, ref) + if ref in kept then 1 else 0
    {
      TimesConcat(s.removed, gone, ref);
      TimesOfDistinct(gone, ref);
    }
  }

  /** Whatever happens to the tables between sweeps, and whichever notifications are deleted: a poll never has
      two rows, and has been notified about once for each of its rows that was deleted, and once more if it
      has one now. */
  lemma {:induction false} NotificationsAreAccountedFor(start: State, events: seq<Event>)
    requires Balanced(start) && WellFormedSweeps(events)
    ensures Balanced(After(start, events))
  {
    hide Apply, WellFormed, Balanced;
    if events != [] {
      var n := |events| - 1;
      assert forall e <- events[..n] :: e in events;
      NotificationsAreAccountedFor(start, events[..n]);
      var before, e := After(start, events[..n]), events[n];
      assert e in events;
      match e
      case Sweep(_, _, _, _) => SweepKeepsBalance(before, e);
      case Remove(_) => RemoveKeepsBalance(before, e);
    }
  }

  lemma AfterSnoc(start: State, events: seq<Event>, e: Event)
    ensures After(start, events + [e]) == Apply(After(start, events), e)
  {
    assert (events + [e])[..|events|] == events;
  }

  /** In any stretch of a run a poll is notified about at most as often as its row is deleted, and once more
      if it has no row when the stretch begins. */
  lemma AgainOnlyAfterRemoval(past: seq<Event>, stretch: seq<Event>, ref: Ref)
    requires WellFormedSweeps(past + stretch)
    ensures var s, s' := After(NOTHING, past), After(NOTHING, past + stretch);
      Times(s'.written, ref) - Times(s.written, ref)
        <= Times(s'.removed, ref) - Times(s.removed, ref) + if ref in s.notified then 0 else 1
  {
    hide Apply;
    assert forall e <- past :: e in past + stretch;
    assert Balanced(NOTHING);
    NotificationsAreAccountedFor(NOTHING, past);
    NotificationsAreAccountedFor(NOTHING, past + stretch);
  }

  // ---------------------------------------------------------------- draining a fixed set of polls

  function EndedBy(now: int, notified: seq<Ref>): Row -> bool {
    (r: Row) => IsCandidate(r, notified) && IsEnded(r, now)
  }

  function Pending(t: Tables, notified: seq<Ref>, now: int): nat {
    |Filter(EndedBy(now, notified), t.own + t.voted)|
  }

  function EndedRow(now: int): Row -> bool {
    (r: Row) => IsEnded(r, now)
  }

  /** The clock's readings during a pass find the same polls ended as `now` does. */
  ghost predicate Steady(candidates: seq<Row>, clock: seq<int>, now: int) {
    && |clock| >= |candidates|
    && forall i :: 0 <= i < |candidates| ==> (IsEnded(candidates[i], clock[i]) <==> IsEnded(candidates[i], now))
  }

  lemma {:induction false} EndedChecks(candidates: seq<Row>, clock: seq<int>, now: int)
    requires Steady(candidates, clock, now)
    ensures |Filter(Done(), Checks(candidates, clock))| == |Filter(EndedRow(now), candidates)|
  {
    if candidates != [] {
      assert Checks(candidates, clock)[1..] == Checks(candidates[1..], clock[1..]);
      EndedChecks(candidates[1..], clock[1..], now);
    }
  }

  lemma {:induction false} EndedCandidates(rows: seq<Row>, notified: seq<Ref>, now: int)
    ensures Filter(EndedRow(now), Filter(Candidate(notified), rows)) == Filter(EndedBy(now, notified), rows)
  {
    if rows != [] {
      EndedCandidates(rows[1..], notified, now);
      FilterConcat(EndedRow(now), [rows[0]], Filter(Candidate(notified), rows[1..]));
    }
  }

  lemma PendingCandidates(t: Tables, notified: seq<Ref>, now: int)
    ensures Pending(t, notified, now) == |Filter(EndedRow(now), Candidates(t, notified))|
  {
    EndedCandidates(t.own, notified, now);
    EndedCandidates(t.voted, notified, now);
    FilterConcat(EndedBy(now, notified), t.own, t.voted);
    FilterConcat(EndedRow(now), Filter(Candidate(notified), t.own), Filter(Candidate(notified), t.voted));
  }

  ghost predicate IsPending(rows: seq<Row>, notified: seq<Ref>, ref: Ref, now: int) {
    exists r :: r in rows && r.ref == ref && EndedBy(now, notified)(r)
  }

  /** Notifying about one pending poll leaves one pending poll less. */
  lemma {:induction false} NotifyOne(rows: seq<Row>, notified: seq<Ref>, ref: Ref, now: int)
    requires DistinctRefs(rows)
    ensures |Filter(EndedBy(now, notified + [ref]), rows)| == |Filter(EndedBy(now, notified), rows)|
      - if IsPending(rows, notified, ref, now) then 1 else 0
  {
    if rows != [] {
      NotifyOne(rows[1..], notified, ref, now);
      assert forall r :: r in rows <==> r == rows[0] || r in rows[1..];
      assert forall r <- rows[1..] :: r.ref != rows[0].ref by {
        forall r | r in rows[1..]
          ensures r.ref != rows[0].ref
        {
          var i :| 0 <= i < |rows| - 1 && rows[1..][i] == r;
          assert rows[i + 1] == r;
        }
      }
    }
  }

  lemma {:induction false} NotifyMany(rows: seq<Row>, notified: seq<Ref>, refs: seq<Ref>, now: int)
    requires DistinctRefs(rows) && Distinct(refs)
    requires forall ref <- refs :: IsPending(rows, notified, ref, now)
    ensures |Filter(EndedBy(now, notified + refs), rows)| == |Filter(EndedBy(now, notified), rows)| - |refs|
  {
    if refs == [] {
      assert notified + refs == notified;
    } else {
      var n := |refs| - 1;
      assert forall ref <- refs[..n] :: ref in refs;
      assert refs[n] in refs;
      NotifyMany(rows, notified, refs[..n], now);
      var r :| r in rows && r.ref == refs[n] && EndedBy(now, notified)(r);
      assert EndedBy(now, notified + refs[..n])(r) && IsPending(rows, notified + refs[..n], refs[n], now);
      NotifyOne(rows, notified + refs[..n], refs[n], now);
      assert notified + refs == notified + refs[..n] + [refs[n]];
    }
  }

  lemma {:induction false} RowsAreDistinct(t: Tables)
    requires WellFormed(t)
    ensures DistinctRefs(t.own + t.voted)
  {
    var rows := t.own + t.voted;
    forall i, j | 0 <= i < j < |rows|
      ensures rows[i].ref != rows[j].ref
    {
      if i < |t.own| <= j {
        assert rows[i] in t.own && rows[j] in t.voted;
      }
    }
  }

  /** What a pass emits is pending. */
  lemma EmittedArePending(t: Tables, notified: seq<Ref>, clock: seq<int>, limit: int, now: int)
    requires WellFormed(t) && Steady(Candidates(t, notified), clock, now)
    ensures var refs := Emitted(Checks(Candidates(t, notified), clock), limit);
      && Distinct(refs)
      && forall ref <- refs :: IsPending(t.own + t.voted, notified, ref, now)
  {
    var candidates := Candidates(t, notified);
    var checks := Checks(candidates, clock);
    CandidatesAreDistinct(t, notified);
    EmittedIsDistinct(checks, limit);
    FilterMembers(Candidate(notified), t.own);
    FilterMembers(Candidate(notified), t.voted);
    forall ref | ref in Emitted(checks, limit)
      ensures IsPending(t.own + t.voted, notified, ref, now)
    {
      var i :| 0 <= i < |checks| && checks[i] == Check(ref, true);
      assert candidates[i] in candidates;
      assert candidates[i] in t.own + t.voted && EndedBy(now, notified)(candidates[i]);
    }
  }

  lemma PassLowersPending(t: Tables, notified: seq<Ref>, clock: seq<int>, limit: nat, now: int)
    requires WellFormed(t) && Steady(Candidates(t, notified), clock, now)
    ensures Pending(t, Swept(t, notified, clock, limit, true), now) == Max(0, Pending(t, notified, now) - limit)
  {
    var checks := Checks(Candidates(t, notified), clock);
    EmitsUpToTheLimit(checks, limit);
    EndedChecks(Candidates(t, notified), clock, now);
    PendingCandidates(t, notified, now);
    EmittedArePending(t, notified, clock, limit, now);
    RowsAreDistinct(t);
    NotifyMany(t.own + t.voted, notified, Emitted(checks, limit), now);
  }

  lemma {:induction false} EmitsAllEnded(checks: seq<Check>, limit: int, i: nat)
    requires i < |checks| && checks[i].ended && |Filter(Done(), checks)| <= limit
    ensures checks[i].ref in Emitted(checks, limit)
    decreases |checks|
  {
    if i > 0 {
      EmitsAllEnded(checks[1..], if checks[0].ended then limit - 1 else limit, i - 1);
    }
    assert |Filter(Done(), checks)| >= 1 by {
      FilterMembers(Done(), checks);
      assert checks[i] in checks;
    }
  }

  /** A sweep with room for all that is pending writes about each poll that is pending, and no other: about
      one whose notification was deleted just as about one that never had any. */
  lemma WrittenIffPending(s: State, e: Event, ref: Ref, now: int)
    requires e.Sweep? && e.enabled && WellFormed(e.tables)
    requires Steady(Candidates(e.tables, s.notified), e.clock, now)
    requires Pending(e.tables, s.notified, now) <= e.limit
    ensures Times(Apply(s, e).written, ref)
      == Times(s.written, ref) + if IsPending(e.tables.own + e.tables.voted, s.notified, ref, now) then 1 else 0
  {
    var candidates := Candidates(e.tables, s.notified);
    var checks := Checks(candidates, e.clock);
    var emitted := Emitted(checks, e.limit);
    EmittedArePending(e.tables, s.notified, e.clock, e.limit, now);
    EndedChecks(candidates, e.clock, now);
    PendingCandidates(e.tables, s.notified, now);
    if r :| r in e.tables.own + e.tables.voted && r.ref == ref && EndedBy(now, s.notified)(r) {
      FilterMembers(Candidate(s.notified), e.tables.own);
      FilterMembers(Candidate(s.notified), e.tables.voted);
      assert r in candidates;
      var i :| 0 <= i < |candidates| && candidates[i] == r;
      assert checks[i] == Check(ref, true);
      EmitsAllEnded(checks, e.limit, i);
    }
    TimesConcat(s.written, emitted, ref);
    TimesOfDistinct(emitted, ref);
  }

  /** A sweep over a table that holds one poll only. */
  function SweepOf(r: Row, now: int): Event {
    Sweep(if r.ref.table == Outbox then Tables([r], []) else Tables([], [r]), [now], 1, true)
  }

  lemma SweepsTheOne(r: Row, now: int)
    requires IsCandidate(r, []) && IsEnded(r, now)
    ensures SweepOf(r, now).Sweep? && WellFormed(SweepOf(r, now).tables) && Emits(SweepOf(r, now), []) == [r.ref]
    ensures Apply(NOTHING, SweepOf(r, now)) == State([r.ref], [r.ref], [])
  {
    assert Filter(Candidate([]), [r]) == [r];
    assert Candidates(SweepOf(r, now).tables, []) == [r];
    assert Checks([r], [now]) == [Check(r.ref, true)];
    assert Emitted([Check(r.ref, true)], 1) == [r.ref];
  }

  function Copies(n: nat, ref: Ref): seq<Ref> {
    seq(n, _ => ref)
  }

  lemma OneMore(n: nat, ref: Ref)
    ensures Copies(n + 1, ref) == Copies(n, ref) + [ref]
  {
  }

  lemma RemoveAndSweep(s: State, r: Row, now: int)
    requires IsCandidate(r, []) && IsEnded(r, now) && s.notified == [r.ref]
    ensures Apply(Apply(s, Remove({r.ref})), SweepOf(r, now))
      == State([r.ref], s.written + [r.ref], s.removed + [r.ref])
  {
    hide Emits, SweepOf;
    SweepsTheOne(r, now);
    FilterNothing(NotIn({r.ref}), [r.ref]);
    FilterEverything(In({r.ref}), [r.ref]);
  }

  function Again(r: Row, now: int, n: nat): seq<Event> {
    if n == 0 then [SweepOf(r, now)] else Again(r, now, n - 1) + [Remove({r.ref})] + [SweepOf(r, now)]
  }

  lemma FirstSweep(r: Row, now: int)
    requires IsCandidate(r, []) && IsEnded(r, now)
    ensures After(NOTHING, Again(r, now, 0)) == State([r.ref], Copies(1, r.ref), Copies(0, r.ref))
  {
    SweepsTheOne(r, now);
    AfterSnoc(NOTHING, [], SweepOf(r, now));
    assert [] + [SweepOf(r, now)] == [SweepOf(r, now)];
  }

  /** An ended poll is notified about again after every deletion of its notification: n deletions, n + 1
      notifications. */
  lemma {:induction false} RemovalsRepeat(r: Row, now: int, n: nat)
    requires IsCandidate(r, []) && IsEnded(r, now)
    ensures WellFormedSweeps(Again(r, now, n))
    ensures After(NOTHING, Again(r, now, n)) == State([r.ref], Copies(n + 1, r.ref), Copies(n, r.ref))
  {
    hide Apply, WellFormed, IsEnded, IsCandidate, Emits, SweepOf, Copies, After;
    SweepsTheOne(r, now);
    if n == 0 {
      FirstSweep(r, now);
    } else {
      RemovalsRepeat(r, now, n - 1);
      var before := Again(r, now, n - 1);
      AfterSnoc(NOTHING, before, Remove({r.ref}));
      AfterSnoc(NOTHING, before + [Remove({r.ref})], SweepOf(r, now));
      RemoveAndSweep(After(NOTHING, before), r, now);
      OneMore(n, r.ref);
      OneMore(n - 1, r.ref);
    }
  }

  /** Sweeps over tables that stay as they are, with the polls that have ended staying the same. */
  ghost predicate SteadySweeps(start: State, events: seq<Event>, t: Tables, limit: nat, now: int) {
    forall k :: 0 <= k < |events| ==>
      && events[k].Sweep? && events[k].tables == t && events[k].limit == limit && events[k].enabled
      && Steady(Candidates(t, After(start, events[..k]).notified), events[k].clock, now)
  }

  lemma FirstSweeps(start: State, events: seq<Event>, t: Tables, limit: nat, now: int, n: nat)
    requires n <= |events| && SteadySweeps(start, events, t, limit, now)
    ensures SteadySweeps(start, events[..n], t, limit, now)
  {
    hide After, Steady, Candidates;
    forall k | 0 <= k < n
      ensures events[..n][k] == events[k] && events[..n][..k] == events[..k]
    {
    }
  }

  lemma LastSweep(start: State, events: seq<Event>, t: Tables, limit: nat, now: int)
    requires events != [] && SteadySweeps(start, events, t, limit, now)
    ensures var n := |events| - 1;
      var before := After(start, events[..n]).notified;
      && events[n].Sweep? && Steady(Candidates(t, before), events[n].clock, now)
      && After(start, events).notified == Swept(t, before, events[n].clock, limit, true)
  {
    hide Candidates, IsEnded;
  }

  /** From any state with n polls pending, k sweeps leave n - k * limit of them to notify about, and none
      after ceil(n / limit). */
  lemma {:induction false} PassesDrain(start: State, events: seq<Event>, t: Tables, limit: nat, now: int)
    requires WellFormed(t) && SteadySweeps(start, events, t, limit, now)
    ensures Pending(t, After(start, events).notified, now)
      == Max(0, Pending(t, start.notified, now) - |events| * limit)
  {
    hide Pending, Swept, SteadySweeps, Steady, Candidates;
    if events != [] {
      var n := |events| - 1;
      FirstSweeps(start, events, t, limit, now, n);
      LastSweep(start, events, t, limit, now);
      PassesDrain(start, events[..n], t, limit, now);
      PassLowersPending(t, After(start, events[..n]).notified, events[n].clock, limit, now);
      assert |events| * limit == n * limit + limit;
    }
  }
}
