/** The Web Push worker: one cursor per subscription over the committed notifications. */
module PushWorker {
  import opened Base
  import OutgoingQueue

  const MAX_RETRIES := 16
  const MAX_BACKLOG := 20
  const MAX_CATCH_UP := 5
  const FETCH_LIMIT := 64

  /** The Mastodon type of a notification; Unmapped stands for the types with none. */
  datatype Kind =
    | Mention | Favourite | Reblog | Follow | FollowRequest
    | Status | Poll | Update | Move | Unmapped

  datatype Notification = Notification(id: int, kind: Kind, actor: Option<int>, muted: bool)

  datatype Policy = Everyone | Followed | Follower | Nobody | Unrecognised

  /** The columns of a subscription; deleted marks a row removed from the table. */
  datatype Sub = Sub(
    cursor: int, tries: int, nextTry: Option<int>, alerts: set<Kind>, policy: Policy, deleted: bool)

  /** What one delivery attempt meets: an endpoint that is no longer allowed, a transport error, or a response. */
  datatype Reply = BadEndpoint | NetworkError | Response(status: int, retryAfter: Option<int>)

  /** What a pass reads besides the subscription: its token, who follows whom, the clock, the replies. */
  datatype World = World(
    tokenLive: bool, following: set<int>, followers: set<int>, now: int, reply: Notification -> Reply)

  /** What was decided about a notification, or about a whole backlog: a pass jumped over it, or the owner
      subscribed anew behind it. */
  datatype Decision =
    | Post(id: int, status: int)
    | FilteredOut(id: int)
    | Jump(lag: int, newest: int)
    | Renewed(cursor: int, newest: int)

  predicate Delivered(status: int) {
    200 <= status < 300
  }

  /** The SQL conditions of the scan: an actor, a pushable type, not muted. */
  predicate Eligible(n: Notification) {
    n.actor.Some? && n.kind != Move && n.kind != Unmapped && !n.muted
  }

  predicate AlertEnabled(alerts: set<Kind>, kind: Kind) {
    kind != Move && kind != Unmapped && kind in alerts
  }

  predicate PolicyAllows(policy: Policy, n: Notification, w: World) {
    match policy
    case Everyone => true
    case Nobody => false
    case Followed => n.actor.Some? && n.actor.value in w.following
    case Follower => n.actor.Some? && n.actor.value in w.followers
    case Unrecognised => n.actor.Some?
  }

  predicate Wanted(alerts: set<Kind>, policy: Policy, n: Notification, w: World) {
    AlertEnabled(alerts, n.kind) && PolicyAllows(policy, n, w)
  }

  /** The scan looks at notifications that have an actor and a pushable type and are not muted. */
  lemma EligibleIff(n: Notification)
    ensures Eligible(n) <==>
      n == Notification(n.id, n.kind, n.actor, false) && n.actor != None && n.kind !in {Move, Unmapped}
  {
  }

  /** A subscription wants an eligible notification exactly when the alert for its type is on and its policy lets
      the actor through: anyone, those we follow, our followers, or nobody; an unknown policy lets all through. */
  lemma WantedIff(alerts: set<Kind>, policy: Policy, n: Notification, w: World)
    requires Eligible(n)
    ensures Wanted(alerts, policy, n, w) <==>
      && n.kind in alerts && policy != Nobody
      && (policy == Followed ==> n.actor.value in w.following)
      && (policy == Follower ==> n.actor.value in w.followers)
  {
  }

  /** Three types have an alert switch and no title: building their payload raises. */
  predicate HasTitle(kind: Kind) {
    kind == Mention || kind == Favourite || kind == Reblog || kind == Follow || kind == FollowRequest
  }

  // ---------------------------------------------------------------- one delivery

  datatype Verdict = Filtered | Advance | Stop | Raise

  function Backoff(sub: Sub, retryAfter: Option<int>, now: int): Sub
    requires sub.tries >= 1
  {
    if sub.tries >= MAX_RETRIES then
      sub.(deleted := true)
    else
      sub.(nextTry := if retryAfter.Some? then retryAfter else Some(now + OutgoingQueue.BackoffDelay(sub.tries)))
  }

  function Attempt(sub: Sub, n: Notification, w: World): (Sub, Verdict)
    requires sub.tries >= 0
  {
    var tried := sub.(tries := sub.tries + 1);
    match w.reply(n)
    case BadEndpoint => (tried.(deleted := true), Stop)
    case NetworkError => if HasTitle(n.kind) then (Backoff(tried, None, w.now), Stop) else (tried, Raise)
    case Response(status, retryAfter) =>
      if !HasTitle(n.kind) then (tried, Raise)
      else if Delivered(status) then (tried.(tries := 0), Advance)
      else if status == 404 || status == 410 then (tried.(deleted := true), Stop)
      else if status == 413 then (tried.(tries := 0), Advance)
      else (Backoff(tried, if status == 429 || status == 503 then retryAfter else None, w.now), Stop)
  }

  /** The endpoint was not reached, or answered neither with success nor that the payload is too large. */
  predicate Refused(r: Reply) {
    r.NetworkError? || (r.Response? && !(200 <= r.status < 300) && r.status != 413)
  }

  /** What has an alert and no title; what has neither is never looked at. */
  lemma UntitledAre(kind: Kind)
    ensures HasTitle(kind) <==> kind !in {Status, Poll, Update, Move, Unmapped}
  {
  }

  /** An attempt raises exactly when the payload cannot be built; it lets the cursor move on exactly when the
      POST was accepted or its payload was too large; it ends the subscription exactly when the endpoint is no
      longer allowed or is gone, or refused its sixteenth try in a row. */
  lemma AttemptEndsIff(sub: Sub, n: Notification, w: World)
    requires 0 <= sub.tries < 16 && !sub.deleted
    ensures var r := w.reply(n);
      var (after, verdict) := Attempt(sub, n, w);
      && (verdict == Raise <==> !r.BadEndpoint? && !HasTitle(n.kind))
      && (verdict == Advance <==> HasTitle(n.kind) && r.Response? && (200 <= r.status < 300 || r.status == 413))
      && verdict != Filtered
      && (after.deleted <==>
            || r.BadEndpoint?
            || (HasTitle(n.kind) && r.Response? && r.status in {404, 410})
            || (HasTitle(n.kind) && Refused(r) && sub.tries == 15))
  {
  }

  /** What an attempt writes: one that lets the cursor move on clears the count of tries; one that stops and
      leaves the row sets the next try to the instant a 429 or 503 asked for, or 2^n seconds on after the n-th
      refusal; every other column stays. */
  lemma AttemptWrites(sub: Sub, n: Notification, w: World)
    requires 0 <= sub.tries < 16 && !sub.deleted
    ensures var r := w.reply(n);
      var asked := r.Response? && r.status in {429, 503} && r.retryAfter.Some?;
      var due := if asked then r.retryAfter.value else w.now + Pow2(sub.tries + 1) * 1_000_000;
      var (after, verdict) := Attempt(sub, n, w);
      && (verdict == Advance ==> after == sub.(tries := 0))
      && (verdict == Raise ==> after == sub.(tries := sub.tries + 1))
      && (verdict == Stop && !after.deleted ==> after == sub.(tries := sub.tries + 1, nextTry := Some(due)))
  {
  }

  /** The waits from one refused attempt to the next, with the same answer each time, until the row is deleted. */
  function WaitsLeft(sub: Sub, n: Notification, w: World): int
    requires sub.tries >= 0
    decreases MAX_RETRIES - sub.tries
  {
    var (after, verdict) := Attempt(sub, n, w);
    if sub.tries >= MAX_RETRIES || verdict != Stop || after.deleted || after.nextTry.None? then 0
    else after.nextTry.value - w.now + WaitsLeft(after, n, w)
  }

  /** A push service that keeps refusing without asking for a pause is given up after 65534 seconds. */
  lemma {:induction false} WaitsAddUp(sub: Sub, n: Notification, w: World)
    requires 0 <= sub.tries < 16 && !sub.deleted && HasTitle(n.kind)
    requires Refused(w.reply(n)) && (w.reply(n).Response? ==> w.reply(n).status !in {404, 410})
    requires w.reply(n).Response? ==> w.reply(n).retryAfter.None?
    ensures WaitsLeft(sub, n, w) == (65536 - Pow2(sub.tries + 1)) * 1_000_000
    decreases 16 - sub.tries
  {
    AttemptEndsIff(sub, n, w);
    AttemptWrites(sub, n, w);
    if sub.tries < 15 {
      WaitsAddUp(Attempt(sub, n, w).0, n, w);
    } else {
      assert Pow2(16) == 256 * Pow2(8) && Pow2(8) == 256;
    }
  }

  /** The POST an attempt puts on the wire, if it gets that far and is answered. */
  function Posted(n: Notification, w: World): seq<Decision> {
    if HasTitle(n.kind) && w.reply(n).Response? then [Post(n.id, w.reply(n).status)] else []
  }

  // ---------------------------------------------------------------- one subscription

  datatype End = Exhausted | CutShort | Stopped | Raised

  datatype Pass = Pass(sub: Sub, decisions: seq<Decision>, end: End)

  datatype Considered = Considered(sub: Sub, decisions: seq<Decision>, verdict: Verdict)

  /** One candidate: filtered out, or attempted; either way the cursor moves past it unless the
      attempt failed. */
  function Consider(sub: Sub, n: Notification, w: World): (c: Considered)
    requires sub.tries >= 0
    ensures c.verdict == Filtered || c.verdict == Advance ==> c.sub.tries >= 0
  {
    if !Wanted(sub.alerts, sub.policy, n, w) then
      Considered(sub.(cursor := n.id), [FilteredOut(n.id)], Filtered)
    else
      var (tried, verdict) := Attempt(sub, n, w);
      Considered(if verdict == Advance then tried.(cursor := n.id) else tried, Posted(n, w), verdict)
  }

  function Walk(sub: Sub, candidates: seq<Notification>, delivered: nat, newest: int, w: World): Pass
    requires sub.tries >= 0
    decreases |candidates|
  {
    if candidates == [] then
      Pass(sub.(cursor := newest), [], Exhausted)
    else if delivered >= MAX_CATCH_UP then
      Pass(sub, [], CutShort)
    else
      var c := Consider(sub, candidates[0], w);
      match c.verdict
      case Stop => Pass(c.sub, c.decisions, Stopped)
      case Raise => Pass(c.sub, c.decisions, Raised)
      case Filtered => Resume(c.decisions, Walk(c.sub, candidates[1..], delivered, newest, w))
      case Advance => Resume(c.decisions, Walk(c.sub, candidates[1..], delivered + 1, newest, w))
  }

  /** A pass with the decisions already made put in front. */
  function Resume(made: seq<Decision>, rest: Pass): Pass {
    rest.(decisions := made + rest.decisions)
  }

  lemma ResumeTwice(made: seq<Decision>, more: seq<Decision>, rest: Pass)
    ensures Resume(made, Resume(more, rest)) == Resume(made + more, rest)
    ensures Resume(made, rest.(decisions := more)).decisions == made + more
  {
  }

  /** The walk, one candidate at a time. */
  lemma WalkStep(sub: Sub, candidates: seq<Notification>, delivered: nat, newest: int, w: World)
    requires sub.tries >= 0 && candidates != [] && delivered < MAX_CATCH_UP
    ensures var c := Consider(sub, candidates[0], w);
      Walk(sub, candidates, delivered, newest, w) ==
        if c.verdict == Stop then Pass(c.sub, c.decisions, Stopped)
        else if c.verdict == Raise then Pass(c.sub, c.decisions, Raised)
        else Resume(c.decisions,
                    Walk(c.sub, candidates[1..], if c.verdict == Advance then delivered + 1 else delivered, newest, w))
  {
  }

  lemma WalkEnd(sub: Sub, candidates: seq<Notification>, delivered: nat, newest: int, w: World)
    requires sub.tries >= 0 && (candidates == [] || delivered >= MAX_CATCH_UP)
    ensures Walk(sub, candidates, delivered, newest, w)
      == if candidates == [] then Pass(sub.(cursor := newest), [], Exhausted) else Pass(sub, [], CutShort)
  {
  }

  function InWindow(lo: int, hi: int): Notification -> bool {
    (n: Notification) => lo < n.id <= hi && Eligible(n)
  }

  function Candidates(table: seq<Notification>, lo: int, hi: int): seq<Notification> {
    var all := Filter(InWindow(lo, hi), table);
    all[..Min(|all|, FETCH_LIMIT)]
  }

  function Newest(table: seq<Notification>): int {
    if table == [] then 0 else table[|table| - 1].id
  }

  function CaughtUp(sub: Sub, newest: int): Sub {
    if newest - sub.cursor > MAX_BACKLOG then sub.(cursor := newest - MAX_CATCH_UP) else sub
  }

  function Process(sub: Sub, table: seq<Notification>, w: World): Pass
    requires sub.tries >= 0
  {
    var newest := Newest(table);
    if !w.tokenLive then
      Pass(sub.(deleted := true), [], Stopped)
    else if newest <= sub.cursor then
      Pass(sub, [], Stopped)
    else
      var start := CaughtUp(sub, newest);
      var walk := Walk(start, Candidates(table, start.cursor, newest), 0, newest, w);
      Resume(if newest - sub.cursor > MAX_BACKLOG then [Jump(newest - sub.cursor, newest)] else [], walk)
  }

  /** What a pass does with the row before it walks: a dead token ends the subscription, one that is not behind is
      left alone, and one that is more than twenty ids behind is moved to five before the newest, which is noted. */
  lemma PassStarts(sub: Sub, table: seq<Notification>, w: World)
    requires sub.tries >= 0
    ensures var pass, newest := Process(sub, table, w), if table == [] then 0 else table[|table| - 1].id;
      var far := newest - sub.cursor > 20;
      var start := if far then sub.(cursor := newest - 5) else sub;
      && (!w.tokenLive ==> pass.sub == sub.(deleted := true) && pass.decisions == [])
      && (w.tokenLive && newest <= sub.cursor ==> pass.sub == sub && pass.decisions == [])
      && (w.tokenLive && newest > sub.cursor ==>
            var walk := Walk(start, Candidates(table, start.cursor, newest), 0, newest, w);
            && pass.sub == walk.sub && pass.end == walk.end
            && pass.decisions == (if far then [Jump(newest - sub.cursor, newest)] else []) + walk.decisions)
  {
  }

  /** What a walk does with the next candidate: running out of them puts the cursor on the newest id, and the fifth
      delivery ends it; a candidate that is not wanted, or that an attempt lets it pass, moves the cursor onto it;
      any other attempt ends the walk with the cursor where it was. */
  lemma WalkTakesOne(sub: Sub, candidates: seq<Notification>, delivered: nat, newest: int, w: World)
    requires sub.tries >= 0
    ensures var pass := Walk(sub, candidates, delivered, newest, w);
      && (candidates == [] ==> pass == Pass(sub.(cursor := newest), [], Exhausted))
      && (candidates != [] && delivered >= 5 ==> pass == Pass(sub, [], CutShort))
      && (candidates != [] && delivered < 5 ==>
            var n, rest := candidates[0], candidates[1..];
            var (tried, verdict) := Attempt(sub, n, w);
            var posted := if HasTitle(n.kind) && w.reply(n).Response? then [Post(n.id, w.reply(n).status)] else [];
            if !Wanted(sub.alerts, sub.policy, n, w) then
              var later := Walk(sub.(cursor := n.id), rest, delivered, newest, w);
              pass == Pass(later.sub, [FilteredOut(n.id)] + later.decisions, later.end)
            else if verdict == Advance then
              tried.tries >= 0 &&
              var later := Walk(tried.(cursor := n.id), rest, delivered + 1, newest, w);
              pass == Pass(later.sub, posted + later.decisions, later.end)
            else
              pass == Pass(tried, posted, if verdict == Raise then Raised else Stopped))
  {
    if candidates != [] {
      var (_, verdict) := Attempt(sub, candidates[0], w);
      assert verdict != Filtered;
    }
  }

  class PushSubscription {
    var lastNotificationId: int
    var tries: int
    var nextTry: Option<int>
    var alerts: set<Kind>
    var policy: Policy
    var deleted: bool

    function View(): Sub
      reads this
    {
      Sub(lastNotificationId, tries, nextTry, alerts, policy, deleted)
    }

    /** True when the retries are exhausted and the subscription must go. */
    method ApplyBackoff(retryAfter: Option<int>, now: int) returns (exhausted: bool)
      requires tries >= 1
      modifies this`nextTry
      ensures exhausted <==> tries >= MAX_RETRIES
      ensures View() == Backoff(old(View()), retryAfter, now).(deleted := deleted)
    {
      if tries >= MAX_RETRIES {
        return true;
      }
      nextTry := if retryAfter.Some? then retryAfter else Some(now + OutgoingQueue.BackoffDelay(tries));
      return false;
    }

    /** Attempts one notification; the verdict says whether the cursor may move past it. */
    method DeliverOne(n: Notification, w: World) returns (verdict: Verdict, ghost posts: seq<Decision>)
      requires tries >= 0
      modifies this
      ensures (View(), verdict) == Attempt(old(View()), n, w)
      ensures posts == Posted(n, w)
    {
      posts := Posted(n, w);
      tries := tries + 1;
      var reply := w.reply(n);
      if reply.BadEndpoint? {
        deleted := true;
        return Stop, posts;
      }
      if !HasTitle(n.kind) {
        return Raise, posts;
      }
      if reply.NetworkError? {
        var exhausted := ApplyBackoff(None, w.now);
        deleted := deleted || exhausted;
        return Stop, posts;
      }
      if Delivered(reply.status) {
        tries := 0;
        return Advance, posts;
      }
      if reply.status == 404 || reply.status == 410 {
        deleted := true;
        return Stop, posts;
      }
      if reply.status == 413 {
        tries := 0;
        return Advance, posts;
      }
      var retryAfter := if reply.status == 429 || reply.status == 503 then reply.retryAfter else None;
      var exhausted := ApplyBackoff(retryAfter, w.now);
      deleted := deleted || exhausted;
      return Stop, posts;
    }

    method ConsiderOne(n: Notification, w: World) returns (verdict: Verdict, ghost decisions: seq<Decision>)
      requires tries >= 0
      modifies this
      ensures Considered(View(), decisions, verdict) == Consider(old(View()), n, w)
    {
      if !Wanted(alerts, policy, n, w) {
        lastNotificationId := n.id;
        return Filtered, [FilteredOut(n.id)];
      }
      verdict, decisions := DeliverOne(n, w);
      if verdict == Advance {
        lastNotificationId := n.id;
      }
    }

    /** Walks the candidates in id order; running out of them moves the cursor to the newest id. */
    method WalkCandidates(candidates: seq<Notification>, newest: int, w: World)
      returns (raised: bool, ghost decisions: seq<Decision>)
      requires tries >= 0
      modifies this
      ensures var pass := Walk(old(View()), candidates, 0, newest, w);
        View() == pass.sub && decisions == pass.decisions && raised == (pass.end == Raised)
    {
      hide Walk, Consider;
      ghost var whole := Walk(View(), candidates, 0, newest, w);
      decisions := [];
      var delivered, i := 0, 0;
      while i < |candidates| && delivered < MAX_CATCH_UP
        invariant 0 <= i <= |candidates| && delivered >= 0 && tries >= 0
        invariant whole == Resume(decisions, Walk(View(), candidates[i..], delivered, newest, w))
        decreases |candidates| - i
      {
        assert candidates[i..][1..] == candidates[i + 1..];
        WalkStep(View(), candidates[i..], delivered, newest, w);
        var verdict;
        ghost var made;
        verdict, made := ConsiderOne(candidates[i], w);
        ghost var before := decisions;
        decisions := decisions + made;
        if verdict == Stop || verdict == Raise {
          return verdict == Raise, decisions;
        }
        if verdict == Advance {
          delivered := delivered + 1;
        }
        i := i + 1;
        ResumeTwice(before, made, Walk(View(), candidates[i..], delivered, newest, w));
      }
      WalkEnd(View(), candidates[i..], delivered, newest, w);
      if i == |candidates| {
        lastNotificationId := newest;
      }
      raised := false;
    }

    /** One pass over the subscription: drop it, catch up if it lags too far, then walk the backlog. */
    method ProcessSubscription(table: seq<Notification>, w: World)
      returns (raised: bool, ghost decisions: seq<Decision>)
      requires tries >= 0
      modifies this
      ensures var pass := Process(old(View()), table, w);
        View() == pass.sub && decisions == pass.decisions && raised == (pass.end == Raised)
    {
      raised, decisions := false, [];
      if !w.tokenLive {
        deleted := true;
        return;
      }
      var newest := Newest(table);
      var backlog := newest - lastNotificationId;
      if backlog <= 0 {
        return;
      }
      if backlog > MAX_BACKLOG {
        lastNotificationId := newest - MAX_CATCH_UP;
        decisions := [Jump(backlog, newest)];
      }
      var candidates := Candidates(table, lastNotificationId, newest);
      ghost var made;
      raised, made := WalkCandidates(candidates, newest, w);
      decisions := decisions + made;
    }
  }

  // ---------------------------------------------------------------- the scan sees the whole backlog

  ghost predicate Ascending(s: seq<Notification>) {
    forall i, j :: 0 <= i < j < |s| ==> s[i].id < s[j].id
  }

  lemma {:induction false} FilterAscending(p: Notification -> bool, s: seq<Notification>)
    requires Ascending(s)
    ensures Ascending(Filter(p, s))
  {
    if s != [] {
      FilterAscending(p, s[1..]);
      FilterMembers(p, s[1..]);
      forall n | n in s[1..]
        ensures s[0].id < n.id
      {
        var i :| 0 <= i < |s| - 1 && s[1..][i] == n;
        assert s[i + 1] == n;
      }
    }
  }

  /** Distinct ids in a window of hi - lo positions: there are at most that many. */
  lemma {:induction false} FewIds(s: seq<Notification>, lo: int, hi: int)
    requires Ascending(s) && lo <= hi
    requires forall n <- s :: lo < n.id <= hi
    ensures |s| <= hi - lo
  {
    if s != [] {
      var last := |s| - 1;
      forall n | n in s[..last]
        ensures lo < n.id <= s[last].id - 1
      {
      }
      FewIds(s[..last], lo, s[last].id - 1);
    }
  }

  /** After the catch-up at most 20 ids remain, so LIMIT 64 never cuts the scan short: the candidates
      are exactly the eligible notifications behind the cursor, in id order. */
  lemma LimitNeverTruncates(table: seq<Notification>, sub: Sub)
    requires Ascending(table) && sub.cursor < Newest(table)
    ensures var lo := CaughtUp(sub, Newest(table)).cursor;
      var candidates := Candidates(table, lo, Newest(table));
      && sub.cursor <= lo < Newest(table)
      && candidates == Filter(InWindow(lo, Newest(table)), table)
      && |candidates| <= MAX_BACKLOG
      && Ascending(candidates)
      && forall n :: n in candidates <==> n in table && lo < n.id && Eligible(n)
  {
    var lo, hi := CaughtUp(sub, Newest(table)).cursor, Newest(table);
    FilterMembers(InWindow(lo, hi), table);
    FilterAscending(InWindow(lo, hi), table);
    FewIds(Filter(InWindow(lo, hi), table), lo, hi);
  }

  // ---------------------------------------------------------------- one pass

  /** The ids of the notifications a push service accepted, in the order of the POSTs. */
  function Received(decisions: seq<Decision>): seq<int> {
    if decisions == [] then [] else
      (if decisions[0].Post? && Delivered(decisions[0].status) then [decisions[0].id] else [])
        + Received(decisions[1..])
  }

  lemma {:induction false} ReceivedConcat(a: seq<Decision>, b: seq<Decision>)
    ensures Received(a + b) == Received(a) + Received(b)
  {
    if a == [] {
      assert a + b == b;
    } else {
      assert (a + b)[1..] == a[1..] + b;
      ReceivedConcat(a[1..], b);
    }
  }

  ghost predicate IncreasingWithin(ids: seq<int>, lo: int, hi: int) {
    && (forall i :: 0 <= i < |ids| ==> lo < ids[i] <= hi)
    && forall i, j :: 0 <= i < j < |ids| ==> ids[i] < ids[j]
  }

  /** A notification was delivered, refused as too large, or filtered out by the subscription's own settings. */
  ghost predicate DealtWith(id: int, decisions: seq<Decision>) {
    || FilteredOut(id) in decisions
    || Post(id, 413) in decisions
    || exists status :: Delivered(status) && Post(id, status) in decisions
  }

  lemma DealtWithGrows(id: int, a: seq<Decision>, b: seq<Decision>)
    requires DealtWith(id, a) || DealtWith(id, b)
    ensures DealtWith(id, a + b)
  {
    assert forall d :: d in a || d in b ==> d in a + b;
    if status :| Delivered(status) && (Post(id, status) in a || Post(id, status) in b) {
      assert Post(id, status) in a + b;
    }
  }

  /** A candidate the walk moves past has been dealt with, and only then can it have been received. */
  lemma ConsiderSafe(sub: Sub, n: Notification, w: World)
    requires sub.tries >= 0
    ensures var c := Consider(sub, n, w);
      && c.sub.alerts == sub.alerts && c.sub.policy == sub.policy
      && (c.verdict == Filtered || c.verdict == Advance ==> c.sub.cursor == n.id && DealtWith(n.id, c.decisions))
      && (c.verdict == Stop || c.verdict == Raise ==> c.sub.cursor == sub.cursor && Received(c.decisions) == [])
      && (Received(c.decisions) == [] || Received(c.decisions) == [n.id])
  {
    var c := Consider(sub, n, w);
    if c.verdict == Advance {
      var status := w.reply(n).status;
      assert Post(n.id, status) in c.decisions;
    }
  }

  ghost predicate Walkable(sub: Sub, candidates: seq<Notification>, newest: int) {
    && sub.tries >= 0 && sub.cursor <= newest
    && Ascending(candidates)
    && forall i :: 0 <= i < |candidates| ==> sub.cursor < candidates[i].id <= newest
  }

  lemma WalkableTail(sub: Sub, candidates: seq<Notification>, newest: int, w: World)
    requires Walkable(sub, candidates, newest) && candidates != []
    requires var c := Consider(sub, candidates[0], w); c.verdict == Filtered || c.verdict == Advance
    ensures Walkable(Consider(sub, candidates[0], w).sub, candidates[1..], newest)
  {
    ConsiderSafe(sub, candidates[0], w);
  }

  lemma NothingReceived()
    ensures Received([]) == []
  {
  }

  lemma {:induction false} WalkSafe(sub: Sub, candidates: seq<Notification>, delivered: nat, newest: int, w: World)
    requires Walkable(sub, candidates, newest)
    ensures var pass := Walk(sub, candidates, delivered, newest, w);
      && sub.cursor <= pass.sub.cursor <= newest
      && IncreasingWithin(Received(pass.decisions), sub.cursor, pass.sub.cursor)
    decreases |candidates|
  {
    hide Consider, DealtWith, Received;
    NothingReceived();
    if candidates != [] && delivered < MAX_CATCH_UP {
      var c := Consider(sub, candidates[0], w);
      ConsiderSafe(sub, candidates[0], w);
      if c.verdict == Filtered || c.verdict == Advance {
        var delivered' := if c.verdict == Advance then delivered + 1 else delivered;
        WalkableTail(sub, candidates, newest, w);
        WalkSafe(c.sub, candidates[1..], delivered', newest, w);
        ReceivedConcat(c.decisions, Walk(c.sub, candidates[1..], delivered', newest, w).decisions);
      }
    }
  }

  lemma {:induction false} WalkDealsWith(sub: Sub, candidates: seq<Notification>, delivered: nat, newest: int,
      w: World, k: nat)
    requires Walkable(sub, candidates, newest) && k < |candidates|
    requires candidates[k].id <= Walk(sub, candidates, delivered, newest, w).sub.cursor
    ensures DealtWith(candidates[k].id, Walk(sub, candidates, delivered, newest, w).decisions)
    decreases |candidates|
  {
    var c := Consider(sub, candidates[0], w);
    ConsiderSafe(sub, candidates[0], w);
    if delivered < MAX_CATCH_UP && (c.verdict == Filtered || c.verdict == Advance) {
      var delivered' := if c.verdict == Advance then delivered + 1 else delivered;
      var rest := Walk(c.sub, candidates[1..], delivered', newest, w);
      if k > 0 {
        WalkableTail(sub, candidates, newest, w);
        WalkDealsWith(c.sub, candidates[1..], delivered', newest, w, k - 1);
      }
      DealtWithGrows(candidates[k].id, c.decisions, rest.decisions);
    }
  }

  /** Dropped by a catch-up (more than 20 ids behind, and not among the last five), or left behind by a new
      subscription. */
  predicate DroppedBy(id: int, d: Decision) {
    || (d.Jump? && d.lag > MAX_BACKLOG && d.newest - d.lag < id <= d.newest - MAX_CATCH_UP)
    || (d.Renewed? && d.cursor < id <= d.newest)
  }

  ghost predicate Accounted(id: int, decisions: seq<Decision>) {
    DealtWith(id, decisions) || exists d :: d in decisions && DroppedBy(id, d)
  }

  lemma ScanIsWalkable(sub: Sub, table: seq<Notification>)
    requires sub.tries >= 0 && Ascending(table) && sub.cursor < Newest(table)
    ensures var start := CaughtUp(sub, Newest(table));
      Walkable(start, Candidates(table, start.cursor, Newest(table)), Newest(table))
  {
    LimitNeverTruncates(table, sub);
    NewestIsLargest(table);
  }

  /** One pass: the cursor never goes back, and what was received lies strictly between the old and the
      new cursor, in id order. */
  lemma PassSafe(sub: Sub, table: seq<Notification>, w: World)
    requires sub.tries >= 0 && Ascending(table) && sub.cursor <= Newest(table)
    ensures var pass := Process(sub, table, w);
      && sub.cursor <= pass.sub.cursor <= Newest(table)
      && IncreasingWithin(Received(pass.decisions), sub.cursor, pass.sub.cursor)
  {
    hide Walk, Candidates, Ascending;
    var newest := Newest(table);
    if w.tokenLive && sub.cursor < newest {
      var start := CaughtUp(sub, newest);
      var candidates := Candidates(table, start.cursor, newest);
      ScanIsWalkable(sub, table);
      WalkSafe(start, candidates, 0, newest, w);
      ReceivedConcat(if newest - sub.cursor > MAX_BACKLOG then [Jump(newest - sub.cursor, newest)] else [],
                     Walk(start, candidates, 0, newest, w).decisions);
    }
  }

  /** Every eligible notification the cursor passes was delivered, refused as too large, filtered out
      or dropped by the catch-up. */
  lemma PassAccountsFor(sub: Sub, table: seq<Notification>, w: World, n: Notification)
    requires sub.tries >= 0 && Ascending(table) && sub.cursor <= Newest(table)
    requires n in table && Eligible(n) && sub.cursor < n.id <= Process(sub, table, w).sub.cursor
    ensures Accounted(n.id, Process(sub, table, w).decisions)
  {
    var newest := Newest(table);
    if w.tokenLive && sub.cursor < newest {
      var start := CaughtUp(sub, newest);
      var candidates := Candidates(table, start.cursor, newest);
      var walk := Walk(start, candidates, 0, newest, w);
      var jump := if newest - sub.cursor > MAX_BACKLOG then [Jump(newest - sub.cursor, newest)] else [];
      if n.id <= start.cursor {
        assert DroppedBy(n.id, jump[0]) && jump[0] in jump + walk.decisions;
      } else {
        LimitNeverTruncates(table, sub);
        ScanIsWalkable(sub, table);
        var k :| 0 <= k < |candidates| && candidates[k] == n;
        WalkDealsWith(start, candidates, 0, newest, w, k);
        DealtWithGrows(n.id, jump, walk.decisions);
      }
    }
  }

  lemma NewestIsLargest(table: seq<Notification>)
    requires Ascending(table)
    ensures forall n <- table :: n.id <= Newest(table)
  {
  }

  // ---------------------------------------------------------------- passes that raise

  predicate Passes(n: Notification, w: World) {
    HasTitle(n.kind) && w.reply(n).Response? && (Delivered(w.reply(n).status) || w.reply(n).status == 413)
  }

  function WantedBefore(alerts: set<Kind>, policy: Policy, candidates: seq<Notification>, k: nat, w: World): nat
    requires k <= |candidates|
  {
    if k == 0 then 0 else
      (if Wanted(alerts, policy, candidates[0], w) then 1 else 0)
        + WantedBefore(alerts, policy, candidates[1..], k - 1, w)
  }

  /** Candidate k makes the pass raise: the subscription wants it, it has no title, its endpoint is still
      allowed, and the pass gets to it, past candidates that were all filtered out or passed. */
  predicate Poisonous(sub: Sub, candidates: seq<Notification>, delivered: nat, w: World, k: nat) {
    && k < |candidates|
    && Wanted(sub.alerts, sub.policy, candidates[k], w)
    && !HasTitle(candidates[k].kind)
    && w.reply(candidates[k]) != BadEndpoint
    && (forall j :: 0 <= j < k ==> Wanted(sub.alerts, sub.policy, candidates[j], w) ==> Passes(candidates[j], w))
    && delivered + WantedBefore(sub.alerts, sub.policy, candidates, k, w) < MAX_CATCH_UP
  }

  lemma {:induction false} WalkRaisesIf(sub: Sub, candidates: seq<Notification>, delivered: nat, newest: int,
      w: World, k: nat)
    requires sub.tries >= 0 && Poisonous(sub, candidates, delivered, w, k)
    ensures Walk(sub, candidates, delivered, newest, w).end == Raised
    decreases |candidates|
  {
    if k > 0 {
      var c := Consider(sub, candidates[0], w);
      WalkRaisesIf(c.sub, candidates[1..], if c.verdict == Advance then delivered + 1 else delivered, newest, w, k - 1);
    }
  }

  lemma {:induction false} WalkRaisesOnlyIf(sub: Sub, candidates: seq<Notification>, delivered: nat, newest: int,
      w: World)
    returns (k: nat)
    requires sub.tries >= 0 && Walk(sub, candidates, delivered, newest, w).end == Raised
    ensures Poisonous(sub, candidates, delivered, w, k)
    decreases |candidates|
  {
    var c := Consider(sub, candidates[0], w);
    if c.verdict == Raise {
      k := 0;
    } else {
      var delivered' := if c.verdict == Advance then delivered + 1 else delivered;
      var k' := WalkRaisesOnlyIf(c.sub, candidates[1..], delivered', newest, w);
      k := k' + 1;
    }
  }

  /** A pass ends in an exception, and rolls its whole batch back, exactly when it reaches a wanted
      status, poll or update notification. */
  lemma PassRaisesIff(sub: Sub, table: seq<Notification>, w: World)
    requires sub.tries >= 0
    ensures Process(sub, table, w).end == Raised <==>
      && w.tokenLive && sub.cursor < Newest(table)
      && var start := CaughtUp(sub, Newest(table));
         exists k: nat :: Poisonous(start, Candidates(table, start.cursor, Newest(table)), 0, w, k)
  {
    var newest := Newest(table);
    if w.tokenLive && sub.cursor < newest {
      var start := CaughtUp(sub, newest);
      var candidates := Candidates(table, start.cursor, newest);
      if k: nat :| Poisonous(start, candidates, 0, w, k) {
        WalkRaisesIf(start, candidates, 0, newest, w, k);
      } else if Walk(start, candidates, 0, newest, w).end == Raised {
        var k := WalkRaisesOnlyIf(start, candidates, 0, newest, w);
      }
    }
  }

  // ---------------------------------------------------------------- one batch

  ghost predicate Separate(subs: seq<PushSubscription>) {
    Distinct(subs)
  }

  function Views(subs: seq<PushSubscription>): (views: seq<Sub>)
    reads subs
    ensures |views| == |subs|
    ensures forall k :: 0 <= k < |views| ==> views[k] == subs[k].View()
  {
    seq(|subs|, k requires 0 <= k < |subs| reads subs => subs[k].View())
  }

  method ProcessAt(subs: seq<PushSubscription>, k: nat, table: seq<Notification>, w: World) returns (raised: bool)
    requires Separate(subs) && k < |subs| && subs[k].tries >= 0
    modifies subs[k]
    ensures var pass := Process(old(subs[k].View()), table, w);
      raised == (pass.end == Raised) && Views(subs) == old(Views(subs))[k := pass.sub]
  {
    ghost var decisions;
    raised, decisions := subs[k].ProcessSubscription(table, w);
  }

  method RestoreAt(subs: seq<PushSubscription>, k: nat, saved: Sub)
    requires Separate(subs) && k < |subs|
    modifies subs[k]
    ensures Views(subs) == old(Views(subs))[k := saved]
  {
    var sub := subs[k];
    sub.lastNotificationId, sub.tries, sub.nextTry := saved.cursor, saved.tries, saved.nextTry;
    sub.alerts, sub.policy, sub.deleted := saved.alerts, saved.policy, saved.deleted;
  }

  /** The main loop's rollback after an exception. */
  method Rollback(subs: seq<PushSubscription>, saved: seq<Sub>)
    requires Separate(subs) && |saved| == |subs|
    modifies subs
    ensures Views(subs) == saved
  {
    for k := 0 to |subs|
      invariant forall j :: 0 <= j < k ==> Views(subs)[j] == saved[j]
    {
      RestoreAt(subs, k, saved[k]);
    }
  }

  /** A batch commits every subscription's pass, or, when any of them raises, none. */
  method ProcessPushSubscriptionsBatch(subs: seq<PushSubscription>, table: seq<Notification>, worlds: seq<World>)
    returns (committed: bool)
    requires Separate(subs) && |worlds| == |subs|
    requires forall k :: 0 <= k < |subs| ==> Views(subs)[k].tries >= 0
    modifies subs
    ensures committed <==> forall k :: 0 <= k < |subs| ==> Process(old(Views(subs))[k], table, worlds[k]).end != Raised
    ensures !committed ==> Views(subs) == old(Views(subs))
    ensures committed ==>
      forall k :: 0 <= k < |subs| ==> Views(subs)[k] == Process(old(Views(subs))[k], table, worlds[k]).sub
  {
    var saved := Views(subs);
    for k := 0 to |subs|
      invariant forall j :: 0 <= j < k ==>
        Process(saved[j], table, worlds[j]).end != Raised && Views(subs)[j] == Process(saved[j], table, worlds[j]).sub
      invariant forall j :: k <= j < |subs| ==> Views(subs)[j] == saved[j]
    {
      var raised := ProcessAt(subs, k, table, worlds[k]);
      if raised {
        Rollback(subs, saved);
        return false;
      }
    }
    return true;
  }

  // ---------------------------------------------------------------- runs

  /** The anti-busy-loop gate: something eligible lies behind the cursor. */
  ghost predicate Pending(sub: Sub, table: seq<Notification>) {
    exists n :: n in table && sub.cursor < n.id && Eligible(n)
  }

  /** The committed row and table; everything decided so far, and the part of it that belongs to passes
      that were committed. */
  datatype WorkerState = WorkerState(
    sub: Sub, table: seq<Notification>, decisions: seq<Decision>, committed: seq<Decision>)

  /** A notification is committed; the owner changes the alerts or the policy, or posts the subscription anew,
      which puts the cursor on the newest notification; a batch commits; or a batch is rolled back, by this
      subscription, by another one, or because the process stopped, after the first `made` decisions of this
      subscription's pass were carried out. */
  datatype WorkerAction =
    | Arrive(n: Notification)
    | Configure(alerts: set<Kind>, policy: Policy)
    | Renew(alerts: set<Kind>, policy: Policy, now: int)
    | Commit(w: World)
    | Abort(w: World, made: nat)

  ghost predicate Next(s: WorkerState, a: WorkerAction, s': WorkerState) {
    s.sub.tries >= 0 &&
    match a
    case Arrive(n) => n.id > Newest(s.table) && s' == s.(table := s.table + [n])
    case Configure(alerts, policy) => s' == s.(sub := s.sub.(alerts := alerts, policy := policy))
    case Renew(alerts, policy, now) =>
      && !s.sub.deleted
      && var newest := Newest(s.table);
      && var behind := [Renewed(s.sub.cursor, newest)];
      && s' == WorkerState(Sub(newest, 0, Some(now), alerts, policy, false), s.table,
                           s.decisions + behind, s.committed + behind)
    case Commit(w) =>
      && !s.sub.deleted && Pending(s.sub, s.table)
      && var pass := Process(s.sub, s.table, w);
      && pass.end != Raised
      && s' == WorkerState(pass.sub, s.table, s.decisions + pass.decisions, s.committed + pass.decisions)
    case Abort(w, made) =>
      && !s.sub.deleted && Pending(s.sub, s.table)
      && var pass := Process(s.sub, s.table, w);
      && made <= |pass.decisions|
      && s' == s.(decisions := s.decisions + pass.decisions[..made])
  }

  ghost predicate RunOf(states: seq<WorkerState>, actions: seq<WorkerAction>) {
    |states| == |actions| + 1 && forall i :: 0 <= i < |actions| ==> Next(states[i], actions[i], states[i + 1])
  }

  ghost predicate CursorInv(s: WorkerState, start: int) {
    && Ascending(s.table)
    && start <= s.sub.cursor <= Newest(s.table)
    && IncreasingWithin(Received(s.committed), start, s.sub.cursor)
    && forall n <- s.table :: Eligible(n) && start < n.id <= s.sub.cursor ==> Accounted(n.id, s.committed)
  }

  lemma AccountedGrows(id: int, a: seq<Decision>, b: seq<Decision>)
    requires Accounted(id, a) || Accounted(id, b)
    ensures Accounted(id, a + b)
  {
    if DealtWith(id, a) || DealtWith(id, b) {
      DealtWithGrows(id, a, b);
    } else {
      var d :| (d in a || d in b) && DroppedBy(id, d);
      assert d in a + b;
    }
  }

  lemma IncreasingConcat(a: seq<int>, b: seq<int>, lo: int, mid: int, hi: int)
    requires IncreasingWithin(a, lo, mid) && IncreasingWithin(b, mid, hi) && lo <= mid <= hi
    ensures IncreasingWithin(a + b, lo, hi)
  {
  }

  lemma CommitInv(s: WorkerState, w: World, s': WorkerState, start: int)
    requires CursorInv(s, start) && Next(s, Commit(w), s')
    ensures CursorInv(s', start) && s.sub.cursor <= s'.sub.cursor
  {
    var pass := Process(s.sub, s.table, w);
    PassSafe(s.sub, s.table, w);
    ReceivedConcat(s.committed, pass.decisions);
    IncreasingConcat(Received(s.committed), Received(pass.decisions), start, s.sub.cursor, pass.sub.cursor);
    forall n | n in s.table && Eligible(n) && start < n.id <= pass.sub.cursor
      ensures Accounted(n.id, s'.committed)
    {
      if n.id > s.sub.cursor {
        PassAccountsFor(s.sub, s.table, w, n);
      }
      AccountedGrows(n.id, s.committed, pass.decisions);
    }
  }

  lemma ArriveInv(s: WorkerState, n: Notification, start: int)
    requires CursorInv(s, start) && n.id > Newest(s.table)
    ensures CursorInv(s.(table := s.table + [n]), start)
  {
    NewestIsLargest(s.table);
  }

  lemma RenewInv(s: WorkerState, a: WorkerAction, s': WorkerState, start: int)
    requires CursorInv(s, start) && Next(s, a, s') && a.Renew?
    ensures CursorInv(s', start) && s.sub.cursor <= s'.sub.cursor
  {
    var behind := [Renewed(s.sub.cursor, Newest(s.table))];
    ReceivedConcat(s.committed, behind);
    NewestIsLargest(s.table);
    forall n | n in s.table && Eligible(n) && start < n.id <= s'.sub.cursor
      ensures Accounted(n.id, s'.committed)
    {
      if n.id > s.sub.cursor {
        assert behind[0] in behind && DroppedBy(n.id, behind[0]);
      }
      AccountedGrows(n.id, s.committed, behind);
    }
  }

  lemma {:induction false} WalkTries(sub: Sub, candidates: seq<Notification>, delivered: nat, newest: int, w: World)
    requires 0 <= sub.tries < MAX_RETRIES
    ensures var pass := Walk(sub, candidates, delivered, newest, w);
      0 <= pass.sub.tries <= MAX_RETRIES && (!pass.sub.deleted && pass.end != Raised ==> pass.sub.tries < MAX_RETRIES)
    decreases |candidates|
  {
    if candidates != [] && delivered < MAX_CATCH_UP {
      var c := Consider(sub, candidates[0], w);
      if c.verdict == Filtered || c.verdict == Advance {
        WalkTries(c.sub, candidates[1..], if c.verdict == Advance then delivered + 1 else delivered, newest, w);
      }
    }
  }

  lemma PassTries(sub: Sub, table: seq<Notification>, w: World)
    requires 0 <= sub.tries < MAX_RETRIES && !sub.deleted
    ensures var pass := Process(sub, table, w);
      0 <= pass.sub.tries <= MAX_RETRIES && (!pass.sub.deleted && pass.end != Raised ==> pass.sub.tries < MAX_RETRIES)
  {
    if w.tokenLive && sub.cursor < Newest(table) {
      var start := CaughtUp(sub, Newest(table));
      WalkTries(start, Candidates(table, start.cursor, Newest(table)), 0, Newest(table), w);
    }
  }

  /** A row the worker may pick up, or one it removed. */
  ghost predicate Workable(s: WorkerState) {
    && Ascending(s.table) && s.sub.cursor <= Newest(s.table)
    && 0 <= s.sub.tries && (!s.sub.deleted ==> s.sub.tries < MAX_RETRIES)
  }

  /** Where a run starts: nothing decided yet, and a row that the worker may pick up. */
  ghost predicate Initial(s: WorkerState) {
    Workable(s) && !s.sub.deleted && s.decisions == [] && s.committed == []
  }

  /** Over every run, rolled-back batches and renewed subscriptions included: the cursor never goes back, every
      eligible notification behind it is accounted for by a committed pass or was left behind by a renewal, the
      committed passes receive nothing twice (what they receive comes in strictly increasing id order), and
      tries never exceeds 16. */
  lemma {:induction false} CursorSafety(states: seq<WorkerState>, actions: seq<WorkerAction>, k: nat)
    requires RunOf(states, actions) && k <= |actions| && Initial(states[0])
    ensures CursorInv(states[k], states[0].sub.cursor)
    ensures forall j :: 0 <= j <= k ==> states[j].sub.cursor <= states[k].sub.cursor
    ensures 0 <= states[k].sub.tries <= MAX_RETRIES && (!states[k].sub.deleted ==> states[k].sub.tries < MAX_RETRIES)
  {
    hide Walk, Candidates, Eligible, Accounted, Process;
    if k > 0 {
      CursorSafety(states, actions, k - 1);
      var s, a, s' := states[k - 1], actions[k - 1], states[k];
      assert Next(s, a, s');
      match a
      case Arrive(n) => ArriveInv(s, n, states[0].sub.cursor);
      case Configure(_, _) =>
      case Abort(_, _) =>
      case Renew(_, _, _) => RenewInv(s, a, s', states[0].sub.cursor);
      case Commit(w) =>
        CommitInv(s, w, s', states[0].sub.cursor);
        PassTries(s.sub, s.table, w);
    }
  }

  /** What a rolled-back batch had already been received of this subscription's pass. */
  function Stray(s: WorkerState, a: WorkerAction): seq<int>
    requires s.sub.tries >= 0 && (a.Abort? ==> a.made <= |Process(s.sub, s.table, a.w).decisions|)
  {
    if a.Abort? then Received(Process(s.sub, s.table, a.w).decisions[..a.made]) else []
  }

  ghost predicate NothingStray(states: seq<WorkerState>, actions: seq<WorkerAction>, k: nat)
    requires RunOf(states, actions) && k <= |actions|
  {
    forall i :: 0 <= i < k ==> Next(states[i], actions[i], states[i + 1]) && Stray(states[i], actions[i]) == []
  }

  lemma StepReceipts(s: WorkerState, a: WorkerAction, s': WorkerState)
    requires Next(s, a, s')
    ensures s.sub.tries >= 0 && (a.Abort? ==> a.made <= |Process(s.sub, s.table, a.w).decisions|)
    ensures |Received(s'.decisions)| - |Received(s'.committed)|
      == |Received(s.decisions)| - |Received(s.committed)| + |Stray(s, a)|
    ensures Received(s.decisions) == Received(s.committed) && Stray(s, a) == [] ==>
      Received(s'.decisions) == Received(s'.committed)
  {
    hide Process, Pending, Received;
    match a
    case Arrive(_) =>
    case Configure(_, _) =>
    case Renew(_, _, _) =>
      ReceivedConcat(s.decisions, [Renewed(s.sub.cursor, Newest(s.table))]);
      ReceivedConcat(s.committed, [Renewed(s.sub.cursor, Newest(s.table))]);
    case Commit(w) =>
      ReceivedConcat(s.decisions, Process(s.sub, s.table, w).decisions);
      ReceivedConcat(s.committed, Process(s.sub, s.table, w).decisions);
    case Abort(w, made) =>
      ReceivedConcat(s.decisions, Process(s.sub, s.table, w).decisions[..made]);
  }

  /** What a run received is what its committed passes received exactly when no rolled-back batch had a POST
      accepted; otherwise it is more. */
  lemma {:induction false} ReceiptsAreCommittedIff(states: seq<WorkerState>, actions: seq<WorkerAction>, k: nat)
    requires RunOf(states, actions) && k <= |actions| && Initial(states[0])
    ensures |Received(states[k].decisions)| >= |Received(states[k].committed)|
    ensures NothingStray(states, actions, k) <==>
      |Received(states[k].decisions)| == |Received(states[k].committed)|
    ensures NothingStray(states, actions, k) ==> Received(states[k].decisions) == Received(states[k].committed)
  {
    hide Next, Initial, Received, Stray, Process;
    if k == 0 {
      InitialDecisions(states[0]);
    } else {
      ReceiptsAreCommittedIff(states, actions, k - 1);
      var s, a, s' := states[k - 1], actions[k - 1], states[k];
      assert Next(s, a, s');
      StepReceipts(s, a, s');
      assert NothingStray(states, actions, k) <==> NothingStray(states, actions, k - 1) && Stray(s, a) == [];
    }
  }

  lemma InitialDecisions(s: WorkerState)
    requires Initial(s)
    ensures s.decisions == [] && s.committed == []
  {
  }

  /** In a run whose rolled-back batches had no POST accepted, no notification is received twice. */
  lemma NothingReceivedTwice(states: seq<WorkerState>, actions: seq<WorkerAction>, k: nat)
    requires RunOf(states, actions) && k <= |actions| && Initial(states[0])
    requires NothingStray(states, actions, k)
    ensures IncreasingWithin(Received(states[k].decisions), states[0].sub.cursor, states[k].sub.cursor)
  {
    hide Initial, Process;
    CursorSafety(states, actions, k);
    ReceiptsAreCommittedIff(states, actions, k);
  }

  // ---------------------------------------------------------------- termination

  /** The lexicographic pair (newest - cursor, 16 - tries) as one number. */
  function Lag(sub: Sub, newest: int): int {
    if sub.deleted then 0 else (newest - sub.cursor) * (MAX_RETRIES + 1) + (MAX_RETRIES - sub.tries)
  }

  lemma PassLowersLag(sub: Sub, table: seq<Notification>, w: World)
    requires Ascending(table) && 0 <= sub.tries < MAX_RETRIES && !sub.deleted
    requires Pending(sub, table) && Process(sub, table, w).end != Raised
    ensures var pass := Process(sub, table, w);
      && 0 <= Lag(pass.sub, Newest(table)) < Lag(sub, Newest(table))
      && (!pass.sub.deleted ==> 0 <= pass.sub.tries < MAX_RETRIES)
  {
    var newest := Newest(table);
    NewestIsLargest(table);
    if w.tokenLive {
      var start := CaughtUp(sub, newest);
      var candidates := Candidates(table, start.cursor, newest);
      LimitNeverTruncates(table, sub);
      ScanIsWalkable(sub, table);
      WalkSafe(start, candidates, 0, newest, w);
      WalkTries(start, candidates, 0, newest, w);
      WalkMoves(start, candidates, newest, w);
      if start == sub {
        var n :| n in table && sub.cursor < n.id && Eligible(n);
        assert n in candidates;
      }
      LagArithmetic(sub, start, Walk(start, candidates, 0, newest, w).sub, newest);
    }
  }

  /** The first candidate moves the cursor, uses up a try, or ends the subscription. */
  lemma WalkMoves(sub: Sub, candidates: seq<Notification>, newest: int, w: World)
    requires Walkable(sub, candidates, newest)
    requires Walk(sub, candidates, 0, newest, w).end != Raised
    ensures var pass := Walk(sub, candidates, 0, newest, w);
      candidates != [] && !pass.sub.deleted ==>
        pass.sub.cursor > sub.cursor || (pass.sub.cursor == sub.cursor && pass.sub.tries == sub.tries + 1)
  {
    if candidates != [] {
      var c := Consider(sub, candidates[0], w);
      ConsiderSafe(sub, candidates[0], w);
      if c.verdict == Filtered || c.verdict == Advance {
        WalkableTail(sub, candidates, newest, w);
        WalkSafe(c.sub, candidates[1..], if c.verdict == Advance then 1 else 0, newest, w);
      }
    }
  }

  lemma LagArithmetic(sub: Sub, start: Sub, after: Sub, newest: int)
    requires 0 <= sub.tries < MAX_RETRIES && !sub.deleted && sub.cursor <= start.cursor <= after.cursor <= newest
    requires after.deleted || 0 <= after.tries < MAX_RETRIES
    requires sub.cursor < newest
    requires after.deleted || after.cursor > sub.cursor || after.tries == sub.tries + 1
    ensures 0 <= Lag(after, newest) < Lag(sub, newest)
  {
  }

  function IsCommit(): WorkerAction -> bool {
    (a: WorkerAction) => a.Commit?
  }

  function IsRenew(): WorkerAction -> bool {
    (a: WorkerAction) => a.Renew?
  }

  lemma TableGrows(s: WorkerState, a: WorkerAction, s': WorkerState)
    requires Next(s, a, s')
    ensures Newest(s.table) <= Newest(s'.table)
  {
    hide Process, Pending;
  }

  /** A committed pass lowers the lag behind any later newest id; only a renewal can raise it again, by the
      tries it gives back. */
  lemma StepLag(s: WorkerState, a: WorkerAction, s': WorkerState, newest: int)
    requires Workable(s) && Next(s, a, s') && Newest(s'.table) <= newest
    ensures Workable(s')
    ensures Lag(s'.sub, newest) + (if a.Commit? then 1 else 0)
      <= Lag(s.sub, newest) + if a.Renew? then MAX_RETRIES - 1 else 0
  {
    hide Process, Pending;
    NewestIsLargest(s.table);
    if a.Commit? {
      PassTries(s.sub, s.table, a.w);
      PassLowersLag(s.sub, s.table, a.w);
      PassSafe(s.sub, s.table, a.w);
    }
  }

  lemma {:induction false} LagOverRun(states: seq<WorkerState>, actions: seq<WorkerAction>, k: nat, newest: int)
    requires RunOf(states, actions) && k <= |actions| && Workable(states[0])
    requires Newest(states[k].table) <= newest
    ensures Workable(states[k])
    ensures |Filter(IsCommit(), actions[..k])| + Lag(states[k].sub, newest)
      <= Lag(states[0].sub, newest) + (MAX_RETRIES - 1) * |Filter(IsRenew(), actions[..k])|
  {
    hide Workable, Next, Lag, Newest;
    if k > 0 {
      var s, a, s' := states[k - 1], actions[k - 1], states[k];
      assert Next(s, a, s');
      TableGrows(s, a, s');
      LagOverRun(states, actions, k - 1, newest);
      StepLag(s, a, s', newest);
      assert actions[..k] == actions[..k - 1] + [a];
      FilterSnoc(IsCommit(), actions[..k - 1], a);
      FilterSnoc(IsRenew(), actions[..k - 1], a);
    }
  }

  lemma LagIsNatural(s: WorkerState)
    requires Workable(s)
    ensures Lag(s.sub, Newest(s.table)) >= 0
  {
  }

  /** The gate closes: in every run a subscription gets through it, with a pass that is committed, at most as
      often as its lag behind the last notification of the run, and 15 times more for every renewal. */
  lemma GateCloses(states: seq<WorkerState>, actions: seq<WorkerAction>)
    requires RunOf(states, actions) && Workable(states[0])
    ensures |Filter(IsCommit(), actions)|
      <= Lag(states[0].sub, Newest(states[|actions|].table)) + (MAX_RETRIES - 1) * |Filter(IsRenew(), actions)|
  {
    hide Workable, Next, Lag, Newest, Filter;
    var n := |actions|;
    LagOverRun(states, actions, n, Newest(states[n].table));
    LagIsNatural(states[n]);
    assert actions[..n] == actions;
  }

  // ---------------------------------------------------------------- what a rolled-back batch costs

  function Times(n: nat, ids: seq<int>): seq<int> {
    if n == 0 then [] else Times(n - 1, ids) + ids
  }

  /** A subscription whose pass raises is stuck, whatever the table and the answers: every pass repeats its
      POSTs and rolls back, so after n passes everything the pass delivers was received n times and the
      subscription is where it was. */
  lemma PoisonRepeats(sub: Sub, table: seq<Notification>, w: World, n: nat)
    returns (states: seq<WorkerState>, actions: seq<WorkerAction>)
    requires sub.tries >= 0 && !sub.deleted && Pending(sub, table) && Process(sub, table, w).end == Raised
    ensures RunOf(states, actions) && |actions| == n
    ensures forall a <- actions :: a.Abort?
    ensures states[0] == WorkerState(sub, table, [], []) && states[n].sub == sub && states[n].table == table
    ensures Received(states[n].decisions) == Times(n, Received(Process(sub, table, w).decisions))
  {
    hide Process, Pending;
    states, actions := [WorkerState(sub, table, [], [])], [];
    var made := Process(sub, table, w).decisions;
    var a := Abort(w, |made|);
    for i := 0 to n
      invariant |actions| == i && RunOf(states, actions)
      invariant forall a <- actions :: a.Abort?
      invariant states[0] == WorkerState(sub, table, [], [])
      invariant states[i].sub == sub && states[i].table == table
      invariant Received(states[i].decisions) == Times(i, Received(made))
    {
      var s := states[i];
      ReceivedConcat(s.decisions, made);
      var s' := s.(decisions := s.decisions + made);
      assert made[..|made|] == made;
      assert Next(s, a, s');
      states, actions := states + [s'], actions + [a];
    }
  }

  /** Such a subscription: with an alert on for statuses, a status notification behind a mention that the
      push service accepts. */
  lemma MentionBeforeStatusRaises(sub: Sub, table: seq<Notification>, w: World)
    requires table == [Notification(1, Mention, Some(7), false), Notification(2, Status, Some(7), false)]
    requires sub == Sub(0, 0, None, {Mention, Status}, Everyone, false)
    requires w.tokenLive && w.reply(table[0]) == w.reply(table[1]) == Response(201, None)
    ensures Ascending(table) && Pending(sub, table)
    ensures Process(sub, table, w).end == Raised
    ensures Received(Process(sub, table, w).decisions) == [1]
  {
    assert table[0] in table;
    var p := InWindow(0, 2);
    assert table == [table[0]] + [table[1]] && table[1..] == [table[1]] && table[1..][1..] == [];
    assert Filter(p, table[1..]) == [table[1]];
    assert Filter(p, table) == table;
    assert Candidates(table, 0, 2) == table;
    var c := Consider(sub, table[0], w);
    assert c.verdict == Advance && c.decisions == [Post(1, 201)];
    var rest := Walk(c.sub, table[1..], 1, 2, w);
    assert rest == Pass(Attempt(c.sub, table[1], w).0, [], Raised);
    var pass := Process(sub, table, w);
    assert pass.decisions == [Post(1, 201)];
    assert pass.decisions[1..] == [];
  }
}
