/** Quote posts with consent (FEP-044f): our quotes of others, others' quotes of anyone, and the
    authorizations ("stamps") that make either visible. */
module QuoteConsent {
  import opened Base

  type Id = string

  /** The fields of a QuoteAuthorization document that verification reads. */
  datatype Stamp = Stamp(
    apType: string, attributedTo: Option<Id>, interactingObject: Option<Id>, interactionTarget: Option<Id>)

  datatype QuoteState = Pending | Accepted | Rejected | Revoked

  /** One of our posts that quotes another post. */
  datatype OutQuote = OutQuote(
    apId: Id, quoted: Id, state: QuoteState, authorization: Option<Id>, hasSource: bool, deleted: bool)

  /** A remote post that quotes another post. */
  datatype InQuote = InQuote(apId: Id, quoted: Id, authorization: Option<Id>, verified: bool)

  datatype StampRow = StampRow(stamp: Stamp, deleted: bool)

  datatype Policy = Nobody | Public | Followers | Manual

  /** The instance: its base URL, its actor, the host a URL names, and the owner's quote policy. */
  datatype Config = Config(baseUrl: string, actor: Id, hostname: Id -> string, policy: Policy)

  /** The tables: our quotes and others' in row order, our stamps, our quote requests (each with the row
      of the quote it asks for), the requests shown to the owner, and the author of every known post. */
  datatype Db = Db(
    outbox: seq<OutQuote>, inbox: seq<InQuote>, stamps: map<Id, StampRow>, requests: map<Id, nat>,
    asked: set<(Id, Id)>, authors: map<Id, Id>)

  /** Remote documents, as they are served at the moment they are asked for. */
  type Fetch = Id -> Option<Stamp>

  datatype Post = Post(id: Id, author: Id)

  predicate IsLocal(cfg: Config, id: Id) {
    cfg.baseUrl <= id
  }

  function Author(db: Db, id: Id): Option<Id> {
    if id in db.authors then Some(db.authors[id]) else None
  }

  // ---------------------------------------------------------------- verification

  /** The stamp is an authorization by the author, for exactly this quote of exactly this post. */
  predicate Names(stamp: Stamp, quoting: Id, quoted: Id, author: Id) {
    && stamp.apType == "QuoteAuthorization"
    && stamp.attributedTo == Some(author)
    && stamp.interactingObject == Some(quoting)
    && stamp.interactionTarget == Some(quoted)
  }

  function Dereference(cfg: Config, db: Db, fetch: Fetch, stampId: Id): Option<Stamp> {
    if !IsLocal(cfg, stampId) then fetch(stampId)
    else if stampId in db.stamps then Some(db.stamps[stampId].stamp)
    else None
  }

  predicate VerifyQuoteAuthorization(cfg: Config, db: Db, fetch: Fetch, stampId: Id, quoting: Id, quoted: Id,
      author: Id)
  {
    && var stamp := Dereference(cfg, db, fetch, stampId);
    && stamp.Some?
    && Names(stamp.value, quoting, quoted, author)
    && cfg.hostname(stampId) == cfg.hostname(author)
  }

  // ---------------------------------------------------------------- the handlers, on values

  function LocalStamp(cfg: Config, quoting: Id, quoted: Id): StampRow {
    StampRow(Stamp("QuoteAuthorization", Some(cfg.actor), Some(quoting), Some(quoted)), false)
  }

  function Mint(cfg: Config, db: Db, stampId: Id, quoting: Id, quoted: Id): Db {
    db.(stamps := db.stamps[stampId := LocalStamp(cfg, quoting, quoted)])
  }

  /** Posting a quote of a known post: our own need no consent, everyone else's author is asked. */
  function Created(cfg: Config, db: Db, apId: Id, quoted: Id, forbidden: bool, hasSource: bool, stampId: Id,
      request: Id): Db
  {
    var known := db.(authors := db.authors[apId := cfg.actor]);
    if Author(db, quoted) == None || (!IsLocal(cfg, quoted) && forbidden) then
      db
    else if IsLocal(cfg, quoted) then
      Mint(cfg, known, stampId, apId, quoted)
        .(outbox := db.outbox + [OutQuote(apId, quoted, Accepted, Some(stampId), hasSource, false)])
    else
      known.(outbox := db.outbox + [OutQuote(apId, quoted, Pending, None, hasSource, false)],
             requests := db.requests[request := |db.outbox|])
  }

  datatype Answer = Accept(result: Option<Id>) | Reject

  /** Our quote request was answered. An Accept of a post we cannot republish raises and is rolled back. */
  function Answered(cfg: Config, db: Db, fetch: Fetch, request: Id, sender: Id, answer: Answer): Db {
    if request !in db.requests || db.requests[request] >= |db.outbox| then db else
      var row := db.requests[request];
      var quote := db.outbox[row];
      if quote.state != Pending || Author(db, quote.quoted) != Some(sender) then
        db
      else if answer.Reject? || answer.result == None
           || !VerifyQuoteAuthorization(cfg, db, fetch, answer.result.value, quote.apId, quote.quoted, sender) then
        db.(outbox := db.outbox[row := quote.(state := Rejected)])
      else if !quote.hasSource then
        db
      else
        db.(outbox := db.outbox[row := quote.(state := Accepted, authorization := answer.result)])
  }

  /** The row stands on this stamp. */
  predicate Standing(q: OutQuote, stampId: Id) {
    q.authorization == Some(stampId) && q.state == Accepted && !q.deleted
  }

  predicate Relies(q: InQuote, stampId: Id) {
    q.authorization == Some(stampId) && q.verified
  }

  function FindStanding(outbox: seq<OutQuote>, stampId: Id): (row: Option<nat>)
    ensures row.Some? ==> row.value < |outbox| && Standing(outbox[row.value], stampId)
  {
    FirstIndex(q => Standing(q, stampId), outbox)
  }

  function FindRelying(inbox: seq<InQuote>, stampId: Id): (row: Option<nat>)
    ensures row.Some? ==> row.value < |inbox| && Relies(inbox[row.value], stampId)
  {
    FirstIndex(q => Relies(q, stampId), inbox)
  }

  /** A Delete names a stamp: the author who issued it takes the authorization back. */
  function StampDeleted(cfg: Config, db: Db, sender: Id, stampId: Id): Db {
    var ours := FindStanding(db.outbox, stampId);
    var theirs := FindRelying(db.inbox, stampId);
    if IsLocal(cfg, stampId) then
      db
    else if ours.Some? then
      var quote := db.outbox[ours.value];
      if Author(db, quote.quoted) == Some(sender)
      then db.(outbox := db.outbox[ours.value := quote.(state := Revoked)]) else db
    else if theirs.Some? then
      var quote := db.inbox[theirs.value];
      if Author(db, quote.quoted) == Some(sender)
      then db.(inbox := db.inbox[theirs.value := quote.(verified := false)]) else db
    else
      db
  }

  function Learned(cfg: Config, db: Db, fetched: Option<Post>): Db {
    if fetched.None? || fetched.value.id in db.authors || IsLocal(cfg, fetched.value.id) then db
    else db.(authors := db.authors[fetched.value.id := fetched.value.author])
  }

  /** A remote quote arrives; an unknown quoted post is fetched when there is a stamp to check it against. */
  function Received(cfg: Config, db: Db, fetch: Fetch, apId: Id, sender: Id, quoted: Id, presented: Option<Id>,
      fetched: Option<Post>): Db
  {
    if apId in db.authors then db else
      var known := db.(authors := db.authors[apId := sender]);
      var learned := if quoted !in known.authors && presented.Some? then Learned(cfg, known, fetched) else known;
      var author := Author(learned, quoted);
      var verified := presented.Some? && author.Some?
        && VerifyQuoteAuthorization(cfg, learned, fetch, presented.value, apId, quoted, author.value);
      learned.(inbox := db.inbox + [InQuote(apId, quoted, presented, verified)])
  }

  /** The quote stands on a live stamp of ours, which the owner can take back. */
  predicate Revocable(cfg: Config, db: Db, row: nat) {
    && row < |db.inbox|
    && var quote := db.inbox[row];
    && quote.verified
    && quote.authorization.Some?
    && IsLocal(cfg, quote.authorization.value)
    && quote.authorization.value in db.stamps
    && !db.stamps[quote.authorization.value].deleted
    && db.stamps[quote.authorization.value].stamp.apType == "QuoteAuthorization"
  }

  function OwnerRevoked(cfg: Config, db: Db, row: nat): Db {
    if !Revocable(cfg, db, row) then db else
      var stampId := db.inbox[row].authorization.value;
      db.(inbox := db.inbox[row := db.inbox[row].(verified := false)],
          stamps := db.stamps[stampId := db.stamps[stampId].(deleted := true)])
  }

  /** A remote actor asks to quote one of the owner's posts. */
  function Requested(cfg: Config, db: Db, quoted: Option<Id>, quoting: Option<Id>, deleted: bool, public: bool,
      isFollower: bool, stampId: Id): Db
  {
    if quoted == None || !IsLocal(cfg, quoted.value) then db
    else if quoted.value !in db.authors || deleted then db
    else if quoting == None then db
    else if cfg.policy == Nobody || !public then db
    else if cfg.policy == Public || (cfg.policy == Followers && isFollower) then
      Mint(cfg, db, stampId, quoting.value, quoted.value)
    else if cfg.policy == Followers then db
    else db.(asked := db.asked + {(quoting.value, quoted.value)})
  }

  /** The owner answers a request put to them; nothing stops them from answering it twice. */
  function OwnerApproved(cfg: Config, db: Db, quoting: Id, quoted: Id, stampId: Id): Db {
    if (quoting, quoted) in db.asked then Mint(cfg, db, stampId, quoting, quoted) else db
  }

  function PostDeleted(db: Db, row: nat): Db {
    if row >= |db.outbox| then db else db.(outbox := db.outbox[row := db.outbox[row].(deleted := true)])
  }

  // ---------------------------------------------------------------- the handlers, in place

  /** The rows of an instance; the handlers update them in place. */
  class Instance {
    const cfg: Config
    var outbox: seq<OutQuote>
    var inbox: seq<InQuote>
    var stamps: map<Id, StampRow>
    var requests: map<Id, nat>
    var asked: set<(Id, Id)>
    var authors: map<Id, Id>

    constructor (cfg: Config)
      ensures this.cfg == cfg && View() == EMPTY
    {
      this.cfg := cfg;
      outbox, inbox, stamps, requests, asked, authors := [], [], map[], map[], {}, map[];
    }

    function View(): Db
      reads this
    {
      Db(outbox, inbox, stamps, requests, asked, authors)
    }

    method MintQuoteAuthorization(stampId: Id, quoting: Id, quoted: Id)
      modifies this`stamps
      ensures View() == Mint(cfg, old(View()), stampId, quoting, quoted)
    {
      stamps := stamps[stampId := LocalStamp(cfg, quoting, quoted)];
    }

    method SendCreate(apId: Id, quoted: Id, forbidden: bool, hasSource: bool, stampId: Id, request: Id)
      modifies this
      ensures View() == Created(cfg, old(View()), apId, quoted, forbidden, hasSource, stampId, request)
    {
      if Author(View(), quoted) == None || (!IsLocal(cfg, quoted) && forbidden) {
        return;
      }
      authors := authors[apId := cfg.actor];
      var quote := OutQuote(apId, quoted, if IsLocal(cfg, quoted) then Accepted else Pending, None, hasSource, false);
      if IsLocal(cfg, quoted) {
        MintQuoteAuthorization(stampId, apId, quoted);
        quote := quote.(authorization := Some(stampId));
      } else {
        requests := requests[request := |outbox|];
      }
      outbox := outbox + [quote];
    }

    method HandleQuoteRequestAnswer(fetch: Fetch, request: Id, sender: Id, answer: Answer)
      modifies this`outbox
      ensures View() == Answered(cfg, old(View()), fetch, request, sender, answer)
    {
      if request !in requests || requests[request] >= |outbox| {
        return;
      }
      var row := requests[request];
      var quote := outbox[row];
      var author := Author(View(), quote.quoted);
      if quote.state != Pending || author == None || author.value != sender {
        return;
      }
      if answer.Reject? || answer.result == None {
        outbox := outbox[row := quote.(state := Rejected)];
        return;
      }
      var stampId := answer.result.value;
      if !VerifyQuoteAuthorization(cfg, View(), fetch, stampId, quote.apId, quote.quoted, author.value) {
        outbox := outbox[row := quote.(state := Rejected)];
        return;
      }
      if !quote.hasSource {
        return;
      }
      outbox := outbox[row := quote.(state := Accepted, authorization := Some(stampId))];
    }

    /** True when the Delete was consumed as a revocation. */
    method HandleQuoteAuthorizationDelete(sender: Id, stampId: Id) returns (consumed: bool)
      modifies this
      ensures View() == StampDeleted(cfg, old(View()), sender, stampId)
      ensures !consumed ==> View() == old(View())
    {
      if IsLocal(cfg, stampId) {
        return false;
      }
      var ours := FindStanding(outbox, stampId);
      if ours.Some? {
        var quote := outbox[ours.value];
        if Author(View(), quote.quoted) == Some(sender) {
          outbox := outbox[ours.value := quote.(state := Revoked)];
        }
        return true;
      }
      var theirs := FindRelying(inbox, stampId);
      if theirs.Some? {
        var quote := inbox[theirs.value];
        if Author(View(), quote.quoted) == Some(sender) {
          inbox := inbox[theirs.value := quote.(verified := false)];
        }
        return true;
      }
      return false;
    }

    method ProcessInboundQuote(fetch: Fetch, apId: Id, sender: Id, quoted: Id, presented: Option<Id>,
        fetched: Option<Post>)
      modifies this
      ensures View() == Received(cfg, old(View()), fetch, apId, sender, quoted, presented, fetched)
    {
      if apId in authors {
        return;
      }
      authors := authors[apId := sender];
      if quoted !in authors && presented.Some? {
        authors := Learned(cfg, View(), fetched).authors;
      }
      var author := Author(View(), quoted);
      var verified := false;
      if presented.Some? && author.Some? {
        verified := VerifyQuoteAuthorization(cfg, View(), fetch, presented.value, apId, quoted, author.value);
      }
      inbox := inbox + [InQuote(apId, quoted, presented, verified)];
    }

    /** A remote actor asks to quote a post of ours; the reply is what is sent back, if anything. */
    method HandleQuoteRequest(quoted: Option<Id>, quoting: Option<Id>, deleted: bool, public: bool,
        isFollower: bool, stampId: Id) returns (reply: Option<Answer>)
      modifies this
      ensures View() == Requested(cfg, old(View()), quoted, quoting, deleted, public, isFollower, stampId)
      ensures reply.Some? <==>
        && quoted.Some? && quoting.Some? && cfg.baseUrl <= quoted.value && quoted.value in old(authors) && !deleted
        && !(public && cfg.policy == Manual)
      ensures reply.Some? ==>
        var granted := public && (cfg.policy == Public || (cfg.policy == Followers && isFollower));
        reply.value == if granted then Accept(Some(stampId)) else Reject
    {
      if quoted == None || !IsLocal(cfg, quoted.value) {
        return None;
      }
      if quoted.value !in authors || deleted {
        return None;
      }
      if quoting == None {
        return None;
      }
      if cfg.policy == Nobody || !public {
        return Some(Reject);
      }
      if cfg.policy == Public {
        MintQuoteAuthorization(stampId, quoting.value, quoted.value);
        return Some(Accept(Some(stampId)));
      }
      if cfg.policy == Followers {
        if isFollower {
          MintQuoteAuthorization(stampId, quoting.value, quoted.value);
          return Some(Accept(Some(stampId)));
        }
        return Some(Reject);
      }
      asked := asked + {(quoting.value, quoted.value)};
      return None;
    }

    /** False when there is no local authorization to revoke. */
    method SendQuoteRevoke(row: nat) returns (done: bool)
      modifies this
      ensures View() == OwnerRevoked(cfg, old(View()), row)
      ensures done <==> Revocable(cfg, old(View()), row)
    {
      if !Revocable(cfg, View(), row) {
        return false;
      }
      var stampId := inbox[row].authorization.value;
      stamps := stamps[stampId := stamps[stampId].(deleted := true)];
      inbox := inbox[row := inbox[row].(verified := false)];
      return true;
    }
  }

  // ---------------------------------------------------------------- runs

  datatype Event =
    | Quoting(apId: Id, quoted: Id, forbidden: bool, hasSource: bool, stampId: Id, request: Id)
    | AnswerReceived(fetch: Fetch, request: Id, sender: Id, answer: Answer)
    | DeleteReceived(sender: Id, stampId: Id)
    | QuoteReceived(fetch: Fetch, apId: Id, sender: Id, quoted: Id, presented: Option<Id>, fetched: Option<Post>)
    | RequestReceived(
        target: Option<Id>, instrument: Option<Id>, deleted: bool, public: bool, isFollower: bool, stampId: Id)
    | Approve(quoting: Id, quoted: Id, stampId: Id)
    | Revoke(row: nat)
    | DeletePost(row: nat)
    | Learn(post: Post)

  function Apply(cfg: Config, db: Db, e: Event): Db {
    match e
    case Quoting(apId, quoted, forbidden, hasSource, stampId, request) =>
      Created(cfg, db, apId, quoted, forbidden, hasSource, stampId, request)
    case AnswerReceived(fetch, request, sender, answer) => Answered(cfg, db, fetch, request, sender, answer)
    case DeleteReceived(sender, stampId) => StampDeleted(cfg, db, sender, stampId)
    case QuoteReceived(fetch, apId, sender, quoted, presented, fetched) =>
      Received(cfg, db, fetch, apId, sender, quoted, presented, fetched)
    case RequestReceived(target, instrument, deleted, public, isFollower, stampId) =>
      Requested(cfg, db, target, instrument, deleted, public, isFollower, stampId)
    case Approve(quoting, quoted, stampId) => OwnerApproved(cfg, db, quoting, quoted, stampId)
    case Revoke(row) => OwnerRevoked(cfg, db, row)
    case DeletePost(row) => PostDeleted(db, row)
    case Learn(post) => Learned(cfg, db, Some(post))
  }

  /** Ids this instance allocates are new and local; ids that arrive from outside are not local. */
  predicate Fresh(cfg: Config, db: Db, e: Event) {
    match e
    case Quoting(apId, _, _, _, stampId, request) =>
      && apId !in db.authors && IsLocal(cfg, apId)
      && stampId !in db.stamps && IsLocal(cfg, stampId)
      && request !in db.requests
    case QuoteReceived(_, apId, _, _, _, _) => !IsLocal(cfg, apId)
    case RequestReceived(_, _, _, _, _, stampId) => stampId !in db.stamps && IsLocal(cfg, stampId)
    case Approve(_, _, stampId) => stampId !in db.stamps && IsLocal(cfg, stampId)
    case _ => true
  }

  const EMPTY := Db([], [], map[], map[], {}, map[])

  /** The tables after a history of events. */
  function After(cfg: Config, history: seq<Event>): Db {
    if history == [] then EMPTY else
      Apply(cfg, After(cfg, history[..|history| - 1]), history[|history| - 1])
  }

  ghost predicate AllFresh(cfg: Config, history: seq<Event>) {
    forall n :: 0 <= n < |history| ==> Fresh(cfg, After(cfg, history[..n]), history[n])
  }

  /** What the interface shows of a quote: the quoted post, or nothing beyond the link. */
  predicate OursIsShown(q: OutQuote) {
    q.state == Accepted
  }

  predicate TheirsIsShown(q: InQuote) {
    q.verified
  }

  // ---------------------------------------------------------------- one event

  predicate Moves(before: QuoteState, after: QuoteState) {
    || before == after
    || (before == Pending && (after == Accepted || after == Rejected))
    || (before == Accepted && after == Revoked)
  }

  predicate SameQuote(a: OutQuote, b: OutQuote) {
    a.apId == b.apId && a.quoted == b.quoted && a.hasSource == b.hasSource
  }

  /** The quoted post's author answered with a stamp that names exactly this quote. */
  ghost predicate Consented(cfg: Config, db: Db, e: Event, quote: OutQuote) {
    && e.AnswerReceived?
    && e.answer.Accept?
    && e.answer.result.Some?
    && quote.authorization == e.answer.result
    && Author(db, quote.quoted) == Some(e.sender)
    && VerifyQuoteAuthorization(cfg, db, e.fetch, e.answer.result.value, quote.apId, quote.quoted, e.sender)
  }

  /** Our quotes are never lost, and each one moves along pending, accepted or rejected, revoked. */
  lemma OutQuoteStep(cfg: Config, db: Db, e: Event, k: nat)
    requires k < |db.outbox|
    ensures var after := Apply(cfg, db, e).outbox;
      && |db.outbox| <= |after|
      && SameQuote(db.outbox[k], after[k])
      && Moves(db.outbox[k].state, after[k].state)
      && (after[k].state == Accepted && db.outbox[k].state == Pending ==> Consented(cfg, db, e, after[k]))
      && (after[k].authorization != db.outbox[k].authorization ==>
            db.outbox[k].state == Pending && after[k].state == Accepted)
  {
    hide VerifyQuoteAuthorization, FindStanding, FindRelying;
  }

  /** Others' quotes are never lost, and none becomes visible after it was stored. */
  lemma InQuoteStep(cfg: Config, db: Db, e: Event, k: nat)
    requires k < |db.inbox|
    ensures var after := Apply(cfg, db, e).inbox;
      && |db.inbox| <= |after|
      && after[k] == db.inbox[k].(verified := after[k].verified)
      && (after[k].verified ==> db.inbox[k].verified)
  {
    hide VerifyQuoteAuthorization, FindStanding, FindRelying;
  }

  lemma AuthorsAreKept(cfg: Config, db: Db, e: Event, id: Id)
    requires Fresh(cfg, db, e)
    requires id in db.authors
    ensures Author(Apply(cfg, db, e), id) == Author(db, id)
  {
  }

  /** An answer or a Delete changes at most quotes of posts whose author sent it. */
  lemma OnlyTheAuthorDecides(cfg: Config, db: Db, e: Event)
    requires e.AnswerReceived? || e.DeleteReceived?
    ensures var after := Apply(cfg, db, e);
      && after == db.(outbox := after.outbox, inbox := after.inbox)
      && |after.outbox| == |db.outbox| && |after.inbox| == |db.inbox|
      && (forall k :: 0 <= k < |db.outbox| && after.outbox[k] != db.outbox[k] ==>
            Author(db, db.outbox[k].quoted) == Some(e.sender))
      && (forall k :: 0 <= k < |db.inbox| && after.inbox[k] != db.inbox[k] ==>
            Author(db, db.inbox[k].quoted) == Some(e.sender))
  {
  }

  /** What the quoted post's author answers decides a pending quote: anything but an Accept with a stamp
      that verifies rejects it, and such an Accept takes effect exactly when we still hold the text to
      republish. */
  lemma AnswerDecides(cfg: Config, db: Db, e: Event, k: nat)
    requires e.AnswerReceived? && e.request in db.requests && db.requests[e.request] == k
    requires k < |db.outbox| && db.outbox[k].state == Pending
    requires Author(db, db.outbox[k].quoted) == Some(e.sender)
    ensures var stampId := if e.answer.Accept? then e.answer.result else None;
      Apply(cfg, db, e).outbox[k].state ==
        if !Consented(cfg, db, e, db.outbox[k].(authorization := stampId)) then Rejected
        else if db.outbox[k].hasSource then Accepted
        else Pending
  {
  }

  /** The author's Delete of a remote stamp takes our quote down exactly when no earlier row of ours
      stands on the same stamp. */
  lemma RevocationTakesEffectIff(cfg: Config, db: Db, sender: Id, stampId: Id, k: nat)
    requires k < |db.outbox| && Standing(db.outbox[k], stampId) && !IsLocal(cfg, stampId)
    requires Author(db, db.outbox[k].quoted) == Some(sender)
    ensures OursIsShown(StampDeleted(cfg, db, sender, stampId).outbox[k])
      <==> exists j :: 0 <= j < k && Standing(db.outbox[j], stampId)
  {
    var row := FindStanding(db.outbox, stampId);
    assert row.Some? && row.value <= k;
    if row.value < k {
      assert Standing(db.outbox[row.value], stampId);
    }
  }

  /** The author's Delete hides a remote quote that relies on the stamp exactly when no quote of ours stands
      on it and no earlier remote quote relies on it. */
  lemma HidingTakesEffectIff(cfg: Config, db: Db, sender: Id, stampId: Id, k: nat)
    requires k < |db.inbox| && Relies(db.inbox[k], stampId) && !IsLocal(cfg, stampId)
    requires Author(db, db.inbox[k].quoted) == Some(sender)
    ensures TheirsIsShown(StampDeleted(cfg, db, sender, stampId).inbox[k])
      <==> ((exists q :: q in db.outbox && Standing(q, stampId))
            || (exists j :: 0 <= j < k && Relies(db.inbox[j], stampId)))
  {
    var ours := FindStanding(db.outbox, stampId);
    var theirs := FindRelying(db.inbox, stampId);
    assert theirs.Some? && theirs.value <= k;
    if ours.Some? {
      assert db.outbox[ours.value] in db.outbox;
    } else if theirs.value < k {
      assert Relies(db.inbox[theirs.value], stampId);
    }
  }

  // ---------------------------------------------------------------- what each handler writes

  /** A stamp under our base URL is read from the table, deleted or not; any other from where it is served. */
  lemma DereferenceReads(cfg: Config, db: Db, fetch: Fetch, stampId: Id)
    ensures var stamp := Dereference(cfg, db, fetch, stampId);
      && (cfg.baseUrl <= stampId ==>
            && (stamp.Some? <==> stampId in db.stamps)
            && (stampId in db.stamps ==> stamp.value == db.stamps[stampId].stamp))
      && (!(cfg.baseUrl <= stampId) ==> stamp == fetch(stampId))
  {
  }

  /** A stamp verifies exactly when its host is the author's and its document has the one content that lets
      this post quote that one. */
  lemma VerifiesIff(cfg: Config, db: Db, fetch: Fetch, stampId: Id, quoting: Id, quoted: Id, author: Id)
    ensures VerifyQuoteAuthorization(cfg, db, fetch, stampId, quoting, quoted, author) <==>
      && cfg.hostname(stampId) == cfg.hostname(author)
      && Dereference(cfg, db, fetch, stampId)
         == Some(Stamp("QuoteAuthorization", Some(author), Some(quoting), Some(quoted)))
  {
  }

  /** Posting a quote stores it exactly when the quoted post is known and is ours or may be quoted: with a live
      stamp of its own when it is ours, else pending behind a request. */
  lemma PostingWrites(cfg: Config, db: Db, apId: Id, quoted: Id, forbidden: bool, hasSource: bool, stampId: Id,
      request: Id)
    ensures var after := Created(cfg, db, apId, quoted, forbidden, hasSource, stampId, request);
      var ours := cfg.baseUrl <= quoted;
      var stored := quoted in db.authors && (ours || !forbidden);
      var stamp := StampRow(Stamp("QuoteAuthorization", Some(cfg.actor), Some(apId), Some(quoted)), false);
      && (!stored ==> after == db)
      && (stored ==>
            && after.outbox == db.outbox + [OutQuote(apId, quoted, if ours then Accepted else Pending,
                                                     if ours then Some(stampId) else None, hasSource, false)]
            && after.stamps == (if ours then db.stamps[stampId := stamp] else db.stamps)
            && after.requests == (if ours then db.requests else db.requests[request := |db.outbox|])
            && after.authors == db.authors[apId := cfg.actor]
            && after.inbox == db.inbox && after.asked == db.asked)
    ensures Apply(cfg, db, Quoting(apId, quoted, forbidden, hasSource, stampId, request))
      == Created(cfg, db, apId, quoted, forbidden, hasSource, stampId, request)
  {
  }

  /** An answer changes the tables exactly when it answers a request for a pending quote, comes from the quoted
      post's author, and is not an Accept that cannot be republished; it changes the quote's state and, on
      acceptance, its stamp. */
  lemma AnswerWrites(cfg: Config, db: Db, fetch: Fetch, request: Id, sender: Id, answer: Answer, k: nat)
    requires request in db.requests && db.requests[request] == k && k < |db.outbox|
    ensures var after, q := Answered(cfg, db, fetch, request, sender, answer), db.outbox[k];
      var due := q.state == Pending && q.quoted in db.authors && db.authors[q.quoted] == sender;
      var consent := answer.Accept? && answer.result.Some?
        && cfg.hostname(answer.result.value) == cfg.hostname(sender)
        && Dereference(cfg, db, fetch, answer.result.value)
           == Some(Stamp("QuoteAuthorization", Some(sender), Some(q.apId), Some(q.quoted)));
      && (!due || (consent && !q.hasSource) ==> after == db)
      && (due && !consent ==> after == db.(outbox := db.outbox[k := q.(state := Rejected)]))
      && (due && consent && q.hasSource ==>
            after == db.(outbox := db.outbox[k := q.(state := Accepted, authorization := answer.result)]))
    ensures Apply(cfg, db, AnswerReceived(fetch, request, sender, answer))
      == Answered(cfg, db, fetch, request, sender, answer)
  {
  }

  lemma UnknownRequestWritesNothing(cfg: Config, db: Db, fetch: Fetch, request: Id, sender: Id, answer: Answer)
    requires request in db.requests ==> db.requests[request] >= |db.outbox|
    ensures Answered(cfg, db, fetch, request, sender, answer) == db
  {
  }

  /** What a quote that stands on a stamp, or relies on it, holds. */
  lemma StandingIff(ours: OutQuote, theirs: InQuote, stampId: Id)
    ensures Standing(ours, stampId) <==>
      ours == OutQuote(ours.apId, ours.quoted, Accepted, Some(stampId), ours.hasSource, false)
    ensures Relies(theirs, stampId) <==> theirs == InQuote(theirs.apId, theirs.quoted, Some(stampId), true)
  {
  }

  /** A Delete of a stamp revokes one of our quotes exactly when the stamp is not ours, that quote is the first
      one standing on it, and the quoted post's author sent it; it changes nothing else of ours. */
  lemma DeleteRevokesIff(cfg: Config, db: Db, sender: Id, stampId: Id, k: nat)
    requires k < |db.outbox|
    ensures var after := StampDeleted(cfg, db, sender, stampId);
      var hit := !(cfg.baseUrl <= stampId) && Standing(db.outbox[k], stampId)
        && (forall j :: 0 <= j < k ==> !Standing(db.outbox[j], stampId))
        && db.outbox[k].quoted in db.authors && db.authors[db.outbox[k].quoted] == sender;
      && |after.outbox| == |db.outbox|
      && after == db.(outbox := after.outbox, inbox := after.inbox)
      && after.outbox[k] == if hit then db.outbox[k].(state := Revoked) else db.outbox[k]
    ensures Apply(cfg, db, DeleteReceived(sender, stampId)) == StampDeleted(cfg, db, sender, stampId)
  {
    var ours := FindStanding(db.outbox, stampId);
    if ours.Some? && ours.value < k {
      assert Standing(db.outbox[ours.value], stampId);
    }
  }

  /** And it hides a remote quote exactly when the stamp is not ours, none of ours stands on it, that quote is
      the first one relying on it, and the quoted post's author sent it. */
  lemma DeleteHidesIff(cfg: Config, db: Db, sender: Id, stampId: Id, k: nat)
    requires k < |db.inbox|
    ensures var after := StampDeleted(cfg, db, sender, stampId);
      var hit := !(cfg.baseUrl <= stampId) && Relies(db.inbox[k], stampId)
        && (forall q <- db.outbox :: !Standing(q, stampId))
        && (forall j :: 0 <= j < k ==> !Relies(db.inbox[j], stampId))
        && db.inbox[k].quoted in db.authors && db.authors[db.inbox[k].quoted] == sender;
      && |after.inbox| == |db.inbox|
      && after.inbox[k] == if hit then db.inbox[k].(verified := false) else db.inbox[k]
  {
    var ours, theirs := FindStanding(db.outbox, stampId), FindRelying(db.inbox, stampId);
    if ours.Some? {
      assert db.outbox[ours.value] in db.outbox;
    } else if theirs.Some? && theirs.value < k {
      assert Relies(db.inbox[theirs.value], stampId);
    }
  }

  /** The authors known once a quote has arrived: its own, and the quoted post's when that was unknown and could
      be fetched, which is tried only with a stamp at hand. */
  function KnownAuthors(cfg: Config, db: Db, apId: Id, sender: Id, quoted: Id, presented: Option<Id>,
      fetched: Option<Post>): map<Id, Id>
  {
    var known := db.authors[apId := sender];
    if quoted !in known && presented.Some? && fetched.Some? && fetched.value.id !in known
       && !(cfg.baseUrl <= fetched.value.id)
    then known[fetched.value.id := fetched.value.author] else known
  }

  /** A remote quote that is not known yet is stored once, and shown exactly when it presents a stamp with the
      one content that the quoted post's author can give it, from the author's host. */
  lemma ArrivalWrites(cfg: Config, db: Db, fetch: Fetch, apId: Id, sender: Id, quoted: Id, presented: Option<Id>,
      fetched: Option<Post>)
    ensures var after := Received(cfg, db, fetch, apId, sender, quoted, presented, fetched);
      var authors := KnownAuthors(cfg, db, apId, sender, quoted, presented, fetched);
      var shown := presented.Some? && quoted in authors
        && cfg.hostname(presented.value) == cfg.hostname(authors[quoted])
        && Dereference(cfg, db, fetch, presented.value)
           == Some(Stamp("QuoteAuthorization", Some(authors[quoted]), Some(apId), Some(quoted)));
      after == if apId in db.authors then db
               else db.(authors := authors, inbox := db.inbox + [InQuote(apId, quoted, presented, shown)])
    ensures Apply(cfg, db, QuoteReceived(fetch, apId, sender, quoted, presented, fetched))
      == Received(cfg, db, fetch, apId, sender, quoted, presented, fetched)
  {
    hide VerifyQuoteAuthorization, Dereference;
    var authors := KnownAuthors(cfg, db, apId, sender, quoted, presented, fetched);
    if presented.Some? && quoted in authors {
      VerifiesIff(cfg, db.(authors := authors), fetch, presented.value, apId, quoted, authors[quoted]);
      SameDocument(cfg, db, authors, fetch, presented.value);
    }
  }

  lemma SameDocument(cfg: Config, db: Db, authors: map<Id, Id>, fetch: Fetch, stampId: Id)
    ensures Dereference(cfg, db.(authors := authors), fetch, stampId) == Dereference(cfg, db, fetch, stampId)
  {
  }

  /** A request to quote a post is granted, with a live stamp for exactly this pair, exactly when it names a
      known, live, public post of ours and a quoting post, and the policy is public, or followers and a follower
      asks; it is put to the owner exactly when the policy is manual instead; else nothing changes. */
  lemma RequestWrites(cfg: Config, db: Db, quoted: Option<Id>, quoting: Option<Id>, deleted: bool, public: bool,
      isFollower: bool, stampId: Id)
    ensures var after := Requested(cfg, db, quoted, quoting, deleted, public, isFollower, stampId);
      var open := quoted.Some? && quoting.Some? && cfg.baseUrl <= quoted.value && quoted.value in db.authors
        && !deleted && public;
      var granted := open && (cfg.policy == Public || (cfg.policy == Followers && isFollower));
      var put := open && cfg.policy == Manual;
      && (granted ==> after == db.(stamps := db.stamps[stampId :=
            StampRow(Stamp("QuoteAuthorization", Some(cfg.actor), quoting, quoted), false)]))
      && (put ==> after == db.(asked := db.asked + {(quoting.value, quoted.value)}))
      && (!granted && !put ==> after == db)
    ensures Apply(cfg, db, RequestReceived(quoted, quoting, deleted, public, isFollower, stampId))
      == Requested(cfg, db, quoted, quoting, deleted, public, isFollower, stampId)
  {
  }

  /** The owner's approval stamps exactly the pairs that were put to them. */
  lemma ApprovalWrites(cfg: Config, db: Db, quoting: Id, quoted: Id, stampId: Id)
    ensures var stamp := StampRow(Stamp("QuoteAuthorization", Some(cfg.actor), Some(quoting), Some(quoted)), false);
      Apply(cfg, db, Approve(quoting, quoted, stampId))
        == if (quoting, quoted) in db.asked then db.(stamps := db.stamps[stampId := stamp]) else db
  {
  }

  /** A revocation takes effect exactly on a shown quote whose stamp is one of ours and live: the quote is hidden
      and the stamp spent; nothing else changes. */
  lemma RevocationWrites(cfg: Config, db: Db, row: nat)
    ensures var after := OwnerRevoked(cfg, db, row);
      var due := row < |db.inbox| && db.inbox[row].verified && db.inbox[row].authorization.Some?
        && var stampId := db.inbox[row].authorization.value;
        && cfg.baseUrl <= stampId && stampId in db.stamps
        && !db.stamps[stampId].deleted && db.stamps[stampId].stamp.apType == "QuoteAuthorization";
      && (Revocable(cfg, db, row) <==> due)
      && (!due ==> after == db)
      && (due ==>
            var stampId := db.inbox[row].authorization.value;
            && after.inbox == db.inbox[row := db.inbox[row].(verified := false)]
            && after.stamps == db.stamps[stampId := StampRow(db.stamps[stampId].stamp, true)]
            && after == db.(inbox := after.inbox, stamps := after.stamps))
    ensures Apply(cfg, db, Revoke(row)) == OwnerRevoked(cfg, db, row)
  {
  }

  /** Deleting a post of ours marks its row; learning of a post records an author that was not known. */
  lemma OtherWrites(cfg: Config, db: Db, row: nat, post: Post)
    ensures Apply(cfg, db, DeletePost(row)).outbox
      == seq(|db.outbox|, k requires 0 <= k < |db.outbox| =>
           if k == row then db.outbox[k].(deleted := true) else db.outbox[k])
    ensures Apply(cfg, db, DeletePost(row)) == db.(outbox := Apply(cfg, db, DeletePost(row)).outbox)
    ensures Apply(cfg, db, Learn(post)) == db.(authors :=
      if post.id in db.authors || cfg.baseUrl <= post.id then db.authors else db.authors[post.id := post.author])
  {
  }

  // ---------------------------------------------------------------- our quotes, over every run

  /** Where a run of steps can lead a quote. */
  predicate Reaches(before: QuoteState, after: QuoteState) {
    before == after || before == Pending || (before == Accepted && after == Revoked)
  }

  /** Between two moments of a run every quote of ours only moves forward, and an authorization is
      written once. */
  lemma {:induction false} OutQuotesOnlyMoveForward(cfg: Config, history: seq<Event>, m: nat, k: nat)
    requires m <= |history|
    requires k < |After(cfg, history[..m]).outbox|
    ensures var before, after := After(cfg, history[..m]).outbox, After(cfg, history).outbox;
      && k < |after|
      && SameQuote(before[k], after[k])
      && Reaches(before[k].state, after[k].state)
      && (before[k].state != Pending ==> after[k].authorization == before[k].authorization)
  {
    hide Apply;
    if m == |history| {
      assert history[..m] == history;
    } else {
      var n := |history| - 1;
      assert history[..n][..m] == history[..m];
      OutQuotesOnlyMoveForward(cfg, history[..n], m, k);
      OutQuoteStep(cfg, After(cfg, history[..n]), history[n], k);
    }
  }

  /** A new row of ours is pending, or quotes ourselves. */
  lemma NewOutQuote(cfg: Config, db: Db, e: Event, k: nat)
    requires |db.outbox| <= k < |Apply(cfg, db, e).outbox|
    ensures var q := Apply(cfg, db, e).outbox[k];
      q.state == Pending || (q.state == Accepted && IsLocal(cfg, q.quoted))
  {
  }

  /** A quote of someone else's post was accepted only because that post's own author sent an Accept
      whose stamp names the quoting post, the quoted post and the author. */
  lemma {:induction false} AcceptanceNeedsConsent(cfg: Config, history: seq<Event>, k: nat)
    requires AllFresh(cfg, history)
    requires k < |After(cfg, history).outbox|
    requires var q := After(cfg, history).outbox[k];
      (q.state == Accepted || q.state == Revoked) && !IsLocal(cfg, q.quoted)
    ensures exists n ::
      0 <= n < |history| && Consented(cfg, After(cfg, history[..n]), history[n], After(cfg, history).outbox[k])
  {
    hide Apply, Fresh;
    var n := |history| - 1;
    var before, e := After(cfg, history[..n]), history[n];
    if k >= |before.outbox| {
      NewOutQuote(cfg, before, e, k);
    } else {
      OutQuoteStep(cfg, before, e, k);
      if before.outbox[k].state != Pending {
        FreshPrefix(cfg, history, n);
        AcceptanceNeedsConsent(cfg, history[..n], k);
        var i :| 0 <= i < n
          && Consented(cfg, After(cfg, history[..n][..i]), history[..n][i], before.outbox[k]);
        assert history[..n][..i] == history[..i];
        assert Consented(cfg, After(cfg, history[..i]), history[i], After(cfg, history).outbox[k]);
      }
    }
  }

  lemma FreshPrefix(cfg: Config, history: seq<Event>, m: nat)
    requires AllFresh(cfg, history) && m <= |history|
    ensures AllFresh(cfg, history[..m])
  {
    forall n | 0 <= n < m
      ensures Fresh(cfg, After(cfg, history[..m][..n]), history[..m][n])
    {
      assert history[..m][..n] == history[..n];
    }
  }

  // ---------------------------------------------------------------- several quotes on one stamp

  lemma OneMoreEvent(cfg: Config, history: seq<Event>, e: Event)
    requires AllFresh(cfg, history) && Fresh(cfg, After(cfg, history), e)
    ensures AllFresh(cfg, history + [e])
    ensures After(cfg, history + [e]) == Apply(cfg, After(cfg, history), e)
  {
    hide Apply, Fresh;
    var longer := history + [e];
    assert longer[..|history|] == history;
    forall n | 0 <= n < |longer|
      ensures Fresh(cfg, After(cfg, longer[..n]), longer[n])
    {
      if n < |history| {
        assert longer[..n] == history[..n];
      }
    }
  }

  /** A server that now says the stamp authorizes this quote. */
  function Serving(quoting: Id, quoted: Id, author: Id): Fetch {
    _ => Some(Stamp("QuoteAuthorization", Some(author), Some(quoting), Some(quoted)))
  }

  /** The ids of a run in which two posts of ours and a remote one quote the same remote post. */
  datatype Quoters = Quoters(author: Id, quoted: Id, first: Id, second: Id, remote: Id, stampId: Id, r1: Id, r2: Id)

  predicate DistinctQuoters(cfg: Config, q: Quoters) {
    && !IsLocal(cfg, q.quoted) && !IsLocal(cfg, q.stampId) && !IsLocal(cfg, q.remote)
    && IsLocal(cfg, q.first) && IsLocal(cfg, q.second)
    && q.first != q.second && q.remote != q.quoted && q.r1 != q.r2
    && cfg.hostname(q.stampId) == cfg.hostname(q.author)
  }

  /** The run's events: the quotes are posted, then the author answers both with the same stamp and serves
      it for each quote in turn, last for the remote one. */
  function SharedStamp(q: Quoters, spare: Id): seq<Event> {
    [Learn(Post(q.quoted, q.author)),
     Quoting(q.first, q.quoted, false, true, spare, q.r1),
     Quoting(q.second, q.quoted, false, true, spare, q.r2),
     AnswerReceived(Serving(q.first, q.quoted, q.author), q.r1, q.author, Accept(Some(q.stampId))),
     AnswerReceived(Serving(q.second, q.quoted, q.author), q.r2, q.author, Accept(Some(q.stampId))),
     QuoteReceived(Serving(q.remote, q.quoted, q.author), q.remote, q.author, q.quoted, Some(q.stampId), None)]
  }

  /** Several quotes can stand on one stamp, so one Delete by its author can leave quotes shown: here only
      the first of three is taken down. */
  lemma OneDeleteCanLeaveQuotes(cfg: Config, q: Quoters, spare: Id) returns (history: seq<Event>)
    requires DistinctQuoters(cfg, q) && IsLocal(cfg, spare)
    ensures history == SharedStamp(q, spare) + [DeleteReceived(q.author, q.stampId)] && AllFresh(cfg, history)
    ensures var before, after := After(cfg, history[..6]), After(cfg, history);
      && |before.outbox| == |after.outbox| == 2 && |before.inbox| == |after.inbox| == 1
      && Standing(before.outbox[0], q.stampId) && Standing(before.outbox[1], q.stampId)
      && Relies(before.inbox[0], q.stampId)
      && !OursIsShown(after.outbox[0]) && OursIsShown(after.outbox[1]) && TheirsIsShown(after.inbox[0])
  {
    var e := SharedStamp(q, spare);
    var db := SharedStampState(cfg, q, spare);
    history := e + [DeleteReceived(q.author, q.stampId)];
    OneMoreEvent(cfg, e, DeleteReceived(q.author, q.stampId));
    assert history[..6] == e;
    RevocationTakesEffectIff(cfg, db, q.author, q.stampId, 0);
    RevocationTakesEffectIff(cfg, db, q.author, q.stampId, 1);
    HidingTakesEffectIff(cfg, db, q.author, q.stampId, 0);
    OnlyTheAuthorDecides(cfg, db, DeleteReceived(q.author, q.stampId));
    assert db.outbox[0] in db.outbox && Standing(db.outbox[0], q.stampId);
  }

  function Ours(apId: Id, q: Quoters, accepted: bool): OutQuote {
    OutQuote(apId, q.quoted, if accepted then Accepted else Pending, if accepted then Some(q.stampId) else None,
             true, false)
  }

  function Quotes(q: Quoters, posted: nat, accepted: nat): seq<OutQuote> {
    if posted == 0 then []
    else if posted == 1 then [Ours(q.first, q, accepted >= 1)]
    else [Ours(q.first, q, accepted >= 1), Ours(q.second, q, accepted >= 2)]
  }

  /** The tables once that many posts of ours were made, and that many of them accepted. */
  function Shared(cfg: Config, q: Quoters, posted: nat, accepted: nat): Db {
    var known: map<Id, Id> := map[q.quoted := q.author];
    var asked: map<Id, nat> := map[];
    Db(Quotes(q, posted, accepted), [], map[],
       if posted == 0 then asked else if posted == 1 then asked[q.r1 := 0] else asked[q.r1 := 0][q.r2 := 1],
       {},
       if posted == 0 then known
       else if posted == 1 then known[q.first := cfg.actor]
       else known[q.first := cfg.actor][q.second := cfg.actor])
  }

  lemma FirstIsPosted(cfg: Config, q: Quoters, spare: Id)
    requires DistinctQuoters(cfg, q) && IsLocal(cfg, spare)
    ensures Fresh(cfg, Shared(cfg, q, 0, 0), SharedStamp(q, spare)[1])
    ensures Apply(cfg, Shared(cfg, q, 0, 0), SharedStamp(q, spare)[1]) == Shared(cfg, q, 1, 0)
  {
    assert q.first != q.quoted;
  }

  lemma SecondIsPosted(cfg: Config, q: Quoters, spare: Id)
    requires DistinctQuoters(cfg, q) && IsLocal(cfg, spare)
    ensures Fresh(cfg, Shared(cfg, q, 1, 0), SharedStamp(q, spare)[2])
    ensures Apply(cfg, Shared(cfg, q, 1, 0), SharedStamp(q, spare)[2]) == Shared(cfg, q, 2, 0)
  {
    assert q.second != q.quoted;
  }

  lemma FirstIsAccepted(cfg: Config, q: Quoters, spare: Id)
    requires DistinctQuoters(cfg, q) && IsLocal(cfg, spare)
    ensures Apply(cfg, Shared(cfg, q, 2, 0), SharedStamp(q, spare)[3]) == Shared(cfg, q, 2, 1)
  {
    var db := Shared(cfg, q, 2, 0);
    assert q.first != q.quoted && q.second != q.quoted;
    assert db.requests[q.r1] == 0 && Author(db, q.quoted) == Some(q.author);
    assert db.outbox[0 := Ours(q.first, q, true)] == Quotes(q, 2, 1);
  }

  lemma SecondIsAccepted(cfg: Config, q: Quoters, spare: Id)
    requires DistinctQuoters(cfg, q) && IsLocal(cfg, spare)
    ensures Apply(cfg, Shared(cfg, q, 2, 1), SharedStamp(q, spare)[4]) == Shared(cfg, q, 2, 2)
  {
    var db := Shared(cfg, q, 2, 1);
    assert q.first != q.quoted && q.second != q.quoted;
    assert db.requests[q.r2] == 1 && Author(db, q.quoted) == Some(q.author);
    assert db.outbox[1 := Ours(q.second, q, true)] == Quotes(q, 2, 2);
  }

  lemma RemoteIsReceived(cfg: Config, q: Quoters, spare: Id)
    requires DistinctQuoters(cfg, q) && IsLocal(cfg, spare)
    ensures var db, e := Shared(cfg, q, 2, 2), SharedStamp(q, spare)[5];
      && Fresh(cfg, db, e)
      && Apply(cfg, db, e) == db.(inbox := [InQuote(q.remote, q.quoted, Some(q.stampId), true)],
                                  authors := db.authors[q.remote := q.author])
  {
    var db := Shared(cfg, q, 2, 2);
    assert q.first != q.quoted && q.second != q.quoted && q.remote != q.first && q.remote != q.second;
    assert db.inbox + [InQuote(q.remote, q.quoted, Some(q.stampId), true)]
      == [InQuote(q.remote, q.quoted, Some(q.stampId), true)];
  }

  lemma SharedStampState(cfg: Config, q: Quoters, spare: Id) returns (db: Db)
    requires DistinctQuoters(cfg, q) && IsLocal(cfg, spare)
    ensures AllFresh(cfg, SharedStamp(q, spare)) && db == After(cfg, SharedStamp(q, spare))
    ensures |db.outbox| == 2 && Standing(db.outbox[0], q.stampId) && Standing(db.outbox[1], q.stampId)
    ensures |db.inbox| == 1 && Relies(db.inbox[0], q.stampId)
    ensures forall o <- db.outbox :: Author(db, o.quoted) == Some(q.author)
    ensures Author(db, db.inbox[0].quoted) == Some(q.author)
  {
    hide Apply, Fresh, AllFresh, After;
    var e := SharedStamp(q, spare);
    assert e[..0] == [] && e[..1] == e[..0] + [e[0]] && e[..2] == e[..1] + [e[1]] && e[..3] == e[..2] + [e[2]];
    assert e[..4] == e[..3] + [e[3]] && e[..5] == e[..4] + [e[4]] && e == e[..5] + [e[5]];
    QuotedIsLearned(cfg, q, spare);
    OneMoreEvent(cfg, e[..0], e[0]);
    FirstIsPosted(cfg, q, spare);
    OneMoreEvent(cfg, e[..1], e[1]);
    SecondIsPosted(cfg, q, spare);
    OneMoreEvent(cfg, e[..2], e[2]);
    FirstIsAccepted(cfg, q, spare);
    OneMoreEvent(cfg, e[..3], e[3]);
    SecondIsAccepted(cfg, q, spare);
    OneMoreEvent(cfg, e[..4], e[4]);
    RemoteIsReceived(cfg, q, spare);
    OneMoreEvent(cfg, e[..5], e[5]);
    db := After(cfg, e);
  }

  lemma QuotedIsLearned(cfg: Config, q: Quoters, spare: Id)
    requires DistinctQuoters(cfg, q)
    ensures AllFresh(cfg, []) && After(cfg, []) == EMPTY
    ensures forall db: Db :: Fresh(cfg, db, SharedStamp(q, spare)[0])
    ensures forall db: Db :: Fresh(cfg, db, SharedStamp(q, spare)[3]) && Fresh(cfg, db, SharedStamp(q, spare)[4])
    ensures Apply(cfg, EMPTY, SharedStamp(q, spare)[0]) == Shared(cfg, q, 0, 0)
  {
  }

  // ---------------------------------------------------------------- others' quotes, over every run

  /** A quote that is not shown at some moment is not shown at any later one. */
  lemma {:induction false} HiddenQuotesStayHidden(cfg: Config, history: seq<Event>, m: nat, k: nat)
    requires m <= |history|
    requires k < |After(cfg, history[..m]).inbox|
    ensures var before, after := After(cfg, history[..m]).inbox, After(cfg, history).inbox;
      && k < |after|
      && after[k] == before[k].(verified := after[k].verified)
      && (TheirsIsShown(after[k]) ==> TheirsIsShown(before[k]))
  {
    hide Apply;
    if m == |history| {
      assert history[..m] == history;
    } else {
      var n := |history| - 1;
      assert history[..n][..m] == history[..m];
      HiddenQuotesStayHidden(cfg, history[..n], m, k);
      InQuoteStep(cfg, After(cfg, history[..n]), history[n], k);
    }
  }

  /** A shown quote presents a stamp on the quoted author's host, and a stamp of ours is live and names
      exactly this quote. */
  ghost predicate Backed(cfg: Config, db: Db, q: InQuote) {
    q.verified ==>
      && q.authorization.Some? && q.quoted in db.authors
      && cfg.hostname(q.authorization.value) == cfg.hostname(db.authors[q.quoted])
      && (IsLocal(cfg, q.authorization.value) ==>
            && q.authorization.value in db.stamps
            && !db.stamps[q.authorization.value].deleted
            && Names(db.stamps[q.authorization.value].stamp, q.apId, q.quoted, db.authors[q.quoted]))
  }

  predicate NamesHidden(stamp: Stamp, q: InQuote) {
    stamp.interactingObject == Some(q.apId) && !q.verified
  }

  /** A revoked stamp names a stored quote, and that quote is not shown. */
  ghost predicate Spent(db: Db, row: StampRow) {
    row.deleted ==>
      exists k :: 0 <= k < |db.inbox| && NamesHidden(row.stamp, db.inbox[k])
  }

  ghost predicate StoredOnce(cfg: Config, db: Db) {
    && (forall k :: 0 <= k < |db.inbox| ==> db.inbox[k].apId in db.authors && !IsLocal(cfg, db.inbox[k].apId))
    && (forall i, j :: 0 <= i < j < |db.inbox| ==> db.inbox[i].apId != db.inbox[j].apId)
  }

  ghost predicate Inv(cfg: Config, db: Db) {
    && StoredOnce(cfg, db)
    && (forall k :: 0 <= k < |db.inbox| ==> Backed(cfg, db, db.inbox[k]))
    && (forall id <- db.stamps :: Spent(db, db.stamps[id]))
  }

  lemma NewInQuote(cfg: Config, db: Db, e: Event, k: nat)
    requires Fresh(cfg, db, e) && |db.inbox| <= k < |Apply(cfg, db, e).inbox|
    ensures var after := Apply(cfg, db, e);
      && after.inbox[..k] == db.inbox
      && after.inbox[k].apId !in db.authors && after.inbox[k].apId in after.authors
      && !IsLocal(cfg, after.inbox[k].apId)
  {
  }

  lemma StepKeepsStoredOnce(cfg: Config, db: Db, e: Event)
    requires StoredOnce(cfg, db) && Fresh(cfg, db, e)
    ensures StoredOnce(cfg, Apply(cfg, db, e))
  {
    hide Apply;
    var after := Apply(cfg, db, e);
    forall k | 0 <= k < |after.inbox|
      ensures after.inbox[k].apId in after.authors && !IsLocal(cfg, after.inbox[k].apId)
      ensures forall i :: 0 <= i < k ==> after.inbox[i].apId != after.inbox[k].apId
    {
      if k < |db.inbox| {
        InQuoteStep(cfg, db, e, k);
        AuthorsAreKept(cfg, db, e, db.inbox[k].apId);
        forall i | 0 <= i < k
          ensures after.inbox[i].apId != after.inbox[k].apId
        {
          InQuoteStep(cfg, db, e, i);
        }
      } else {
        NewInQuote(cfg, db, e, k);
      }
    }
  }

  lemma StepKeepsInv(cfg: Config, db: Db, e: Event)
    requires Inv(cfg, db) && Fresh(cfg, db, e)
    ensures Inv(cfg, Apply(cfg, db, e))
  {
    hide Apply;
    var after := Apply(cfg, db, e);
    StepKeepsStoredOnce(cfg, db, e);
    forall id | id in after.stamps
      ensures Spent(after, after.stamps[id])
    {
      StepKeepsSpent(cfg, db, e, id);
    }
    forall k | 0 <= k < |after.inbox|
      ensures Backed(cfg, after, after.inbox[k])
    {
      StepKeepsBacked(cfg, db, e, k);
    }
  }

  /** A stamp that is revoked was so before, or was taken back by the owner with the quote it backs. */
  lemma RevokedBy(cfg: Config, db: Db, e: Event, id: Id)
    requires Fresh(cfg, db, e)
    requires var after := Apply(cfg, db, e); id in after.stamps && after.stamps[id].deleted
    ensures id in db.stamps && Apply(cfg, db, e).stamps[id].stamp == db.stamps[id].stamp
    ensures db.stamps[id].deleted
      || (e.Revoke? && Revocable(cfg, db, e.row) && db.inbox[e.row].authorization == Some(id)
          && !Apply(cfg, db, e).inbox[e.row].verified)
  {
    hide VerifyQuoteAuthorization, Author, FindStanding, FindRelying;
  }

  lemma StepKeepsSpent(cfg: Config, db: Db, e: Event, id: Id)
    requires Inv(cfg, db) && Fresh(cfg, db, e)
    requires id in Apply(cfg, db, e).stamps
    ensures Spent(Apply(cfg, db, e), Apply(cfg, db, e).stamps[id])
  {
    hide Apply, Fresh;
    var after := Apply(cfg, db, e);
    if after.stamps[id].deleted {
      RevokedBy(cfg, db, e, id);
      var k: nat;
      if db.stamps[id].deleted {
        assert Spent(db, db.stamps[id]);
        k :| k < |db.inbox| && NamesHidden(db.stamps[id].stamp, db.inbox[k]);
      } else {
        k := e.row;
        assert Backed(cfg, db, db.inbox[k]);
      }
      InQuoteStep(cfg, db, e, k);
      assert NamesHidden(after.stamps[id].stamp, after.inbox[k]);
    }
  }

  lemma NewQuoteIsBacked(cfg: Config, db: Db, e: Event, k: nat)
    requires Inv(cfg, db) && Fresh(cfg, db, e)
    requires |db.inbox| <= k < |Apply(cfg, db, e).inbox|
    ensures Backed(cfg, Apply(cfg, db, e), Apply(cfg, db, e).inbox[k])
  {
    var q := Apply(cfg, db, e).inbox[k];
    if q.verified && IsLocal(cfg, q.authorization.value) {
      assert Spent(db, db.stamps[q.authorization.value]);
    }
  }

  /** A live stamp is touched only by revoking a quote that stands on it. */
  lemma StampStep(cfg: Config, db: Db, e: Event, id: Id)
    requires Fresh(cfg, db, e) && id in db.stamps && !db.stamps[id].deleted
    ensures var after := Apply(cfg, db, e);
      && id in after.stamps
      && after.stamps[id].stamp == db.stamps[id].stamp
      && (after.stamps[id].deleted ==>
            e.Revoke? && Revocable(cfg, db, e.row) && db.inbox[e.row].authorization == Some(id)
            && !after.inbox[e.row].verified)
  {
    hide VerifyQuoteAuthorization, Author, FindStanding, FindRelying;
  }

  lemma StepKeepsBacked(cfg: Config, db: Db, e: Event, k: nat)
    requires Inv(cfg, db) && Fresh(cfg, db, e)
    requires k < |Apply(cfg, db, e).inbox|
    ensures Backed(cfg, Apply(cfg, db, e), Apply(cfg, db, e).inbox[k])
  {
    hide Apply, Fresh;
    var after := Apply(cfg, db, e);
    if k >= |db.inbox| {
      NewQuoteIsBacked(cfg, db, e, k);
    } else {
      InQuoteStep(cfg, db, e, k);
      if after.inbox[k].verified {
        assert Backed(cfg, db, db.inbox[k]);
        AuthorsAreKept(cfg, db, e, db.inbox[k].quoted);
        var stampId := db.inbox[k].authorization.value;
        if IsLocal(cfg, stampId) {
          StampStep(cfg, db, e, stampId);
        }
      }
    }
  }

  lemma {:induction false} InvHolds(cfg: Config, history: seq<Event>)
    requires AllFresh(cfg, history)
    ensures Inv(cfg, After(cfg, history))
  {
    hide Apply;
    if history != [] {
      var n := |history| - 1;
      FreshPrefix(cfg, history, n);
      InvHolds(cfg, history[..n]);
      StepKeepsInv(cfg, After(cfg, history[..n]), history[n]);
    }
  }

  lemma RevokedStampStep(cfg: Config, db: Db, e: Event, stampId: Id)
    requires Fresh(cfg, db, e)
    requires stampId in db.stamps && db.stamps[stampId].deleted
    ensures stampId in Apply(cfg, db, e).stamps && Apply(cfg, db, e).stamps[stampId].deleted
  {
  }

  lemma {:induction false} RevokedStampsStay(cfg: Config, history: seq<Event>, m: nat, stampId: Id)
    requires AllFresh(cfg, history) && m <= |history|
    requires var stamps := After(cfg, history[..m]).stamps; stampId in stamps && stamps[stampId].deleted
    ensures var stamps := After(cfg, history).stamps; stampId in stamps && stamps[stampId].deleted
  {
    hide Apply, Fresh;
    if m == |history| {
      assert history[..m] == history;
    } else {
      var n := |history| - 1;
      FreshPrefix(cfg, history, n);
      assert history[..n][..m] == history[..m];
      RevokedStampsStay(cfg, history[..n], m, stampId);
      RevokedStampStep(cfg, After(cfg, history[..n]), history[n], stampId);
    }
  }

  /** Once the owner has taken a stamp back no quote that presents it is shown, now or later, although
      verification itself does not ask whether the stamp was revoked. */
  lemma RevokedStampIsDead(cfg: Config, history: seq<Event>, m: nat, stampId: Id, k: nat)
    requires AllFresh(cfg, history) && m <= |history|
    requires var stamps := After(cfg, history[..m]).stamps; stampId in stamps && stamps[stampId].deleted
    requires IsLocal(cfg, stampId)
    requires k < |After(cfg, history).inbox|
    ensures After(cfg, history).inbox[k].authorization == Some(stampId) ==> !TheirsIsShown(After(cfg, history).inbox[k])
  {
    RevokedStampsStay(cfg, history, m, stampId);
    InvHolds(cfg, history);
    assert Backed(cfg, After(cfg, history), After(cfg, history).inbox[k]);
  }

  /** In every run the owner can take back any shown quote that stands on a stamp of ours, and doing so
      hides it and spends the stamp. */
  lemma ShownCanBeRevoked(cfg: Config, history: seq<Event>, k: nat)
    requires AllFresh(cfg, history)
    requires k < |After(cfg, history).inbox| && TheirsIsShown(After(cfg, history).inbox[k])
    requires After(cfg, history).inbox[k].authorization.Some?
    requires IsLocal(cfg, After(cfg, history).inbox[k].authorization.value)
    ensures var db := After(cfg, history);
      var after := OwnerRevoked(cfg, db, k);
      && Revocable(cfg, db, k)
      && !TheirsIsShown(after.inbox[k])
      && after.stamps[db.inbox[k].authorization.value].deleted
  {
    hide After;
    InvHolds(cfg, history);
    assert Backed(cfg, After(cfg, history), After(cfg, history).inbox[k]);
  }

  /** A granted request is good for the quote it was made for: when that quote arrives with the stamp, it
      is shown. */
  lemma GrantedQuoteIsShown(cfg: Config, db: Db, quoted: Id, quoting: Id, isFollower: bool, stampId: Id, sender: Id,
      fetch: Fetch)
    requires cfg.policy == Public || (cfg.policy == Followers && isFollower)
    requires cfg.baseUrl <= quoted
    requires Author(db, quoted) == Some(cfg.actor) && quoting !in db.authors && quoting != quoted
    requires IsLocal(cfg, stampId) && cfg.hostname(stampId) == cfg.hostname(cfg.actor)
    ensures var granted := Requested(cfg, db, Some(quoted), Some(quoting), false, true, isFollower, stampId);
      var after := Received(cfg, granted, fetch, quoting, sender, quoted, Some(stampId), None);
      && |after.inbox| == |db.inbox| + 1
      && after.inbox[|db.inbox|] == InQuote(quoting, quoted, Some(stampId), true)
  {
  }

  // ---------------------------------------------------------------- the owner's policy

  /** Under a policy of nobody the owner is never asked, and every stamp names a post of ours. */
  ghost predicate Closed(cfg: Config, db: Db) {
    && db.asked == {}
    && forall id <- db.stamps :: db.stamps[id].stamp.interactingObject.Some?
         && IsLocal(cfg, db.stamps[id].stamp.interactingObject.value)
  }

  lemma ClosedStep(cfg: Config, db: Db, e: Event)
    requires Closed(cfg, db) && Fresh(cfg, db, e) && cfg.policy == Nobody
    ensures Closed(cfg, Apply(cfg, db, e))
  {
    hide VerifyQuoteAuthorization, Author, FindStanding, FindRelying;
  }

  lemma {:induction false} NobodyIsAuthorized(cfg: Config, history: seq<Event>)
    requires AllFresh(cfg, history) && cfg.policy == Nobody
    ensures Closed(cfg, After(cfg, history))
  {
    hide Apply;
    if history != [] {
      var n := |history| - 1;
      FreshPrefix(cfg, history, n);
      NobodyIsAuthorized(cfg, history[..n]);
      ClosedStep(cfg, After(cfg, history[..n]), history[n]);
    }
  }

  /** With the policy nobody, a remote quote of the owner's post is never shown in any run, unless its
      stamp is served by our own host from outside the base URL. */
  lemma NobodyQuotesTheOwner(cfg: Config, history: seq<Event>, k: nat)
    requires AllFresh(cfg, history) && cfg.policy == Nobody
    requires k < |After(cfg, history).inbox|
    requires TheirsIsShown(After(cfg, history).inbox[k])
    requires Author(After(cfg, history), After(cfg, history).inbox[k].quoted) == Some(cfg.actor)
    ensures var stampId := After(cfg, history).inbox[k].authorization;
      stampId.Some? && !IsLocal(cfg, stampId.value) && cfg.hostname(stampId.value) == cfg.hostname(cfg.actor)
  {
    InvHolds(cfg, history);
    NobodyIsAuthorized(cfg, history);
    assert Backed(cfg, After(cfg, history), After(cfg, history).inbox[k]);
  }
}
