/** The bounded walk up a reply chain that names a post's conversation. */
module ConversationRoot {
  import opened Base

  type Id = string

  /** A post; an empty context or reply target counts as none. */
  datatype Post = Post(apId: Id, context: string, inReplyTo: Id)

  /** Looking a parent up: known or fetched, not to be had (a fetch error, or a status from 400 to 499), or
      failing in a way that ends the walk. */
  datatype Lookup = Found(post: Post) | Unfetchable | Fails

  type World = Id -> Lookup

  datatype Result = Conversation(id: string) | Raised

  datatype Walked = Walked(result: Result, calls: nat)

  const MAX_DEPTH := 10

  function RootId(post: Post): string {
    "microblogpub:root:" + post.apId
  }

  /** The recursion, with the number of calls it makes. */
  function FetchConversationRoot(world: World, post: Post, isRoot: bool, depth: nat): (w: Walked)
    ensures 1 <= w.calls <= Max(1, MAX_DEPTH + 2 - depth)
    decreases MAX_DEPTH + 1 - depth
  {
    if post.context != "" then Walked(Conversation(post.context), 1)
    else if post.inReplyTo == "" || isRoot || depth > MAX_DEPTH then Walked(Conversation(RootId(post)), 1)
    else
      match world(post.inReplyTo)
      case Fails => Walked(Raised, 1)
      case Unfetchable =>
        var w := FetchConversationRoot(world, post, true, depth + 1);
        w.(calls := w.calls + 1)
      case Found(parent) =>
        var w := FetchConversationRoot(world, parent, false, depth + 1);
        w.(calls := w.calls + 1)
  }

  function ConversationOf(world: World, post: Post): Result {
    FetchConversationRoot(world, post, false, 0).result
  }

  // ---------------------------------------------------------------- the unbounded walk

  /** Where an unbounded walk would stop: at a context, at a root, or below a parent it cannot have. */
  predicate Stops(world: World, post: Post) {
    post.context != "" || post.inReplyTo == "" || world(post.inReplyTo).Unfetchable?
  }

  function Answer(post: Post): string {
    if post.context != "" then post.context else RootId(post)
  }

  /** The ancestor n hops up, when every post below it has a parent to go on to. */
  function Ancestor(world: World, post: Post, n: nat): Option<Post>
    decreases n
  {
    if n == 0 then Some(post)
    else if Stops(world, post) || world(post.inReplyTo).Fails? then None
    else Ancestor(world, world(post.inReplyTo).post, n - 1)
  }

  lemma {:induction false} AncestorsCompose(world: World, post: Post, m: nat, n: nat)
    requires Ancestor(world, post, m).Some?
    ensures Ancestor(world, post, m + n) == Ancestor(world, Ancestor(world, post, m).value, n)
    decreases m
  {
    if m > 0 {
      AncestorsCompose(world, world(post.inReplyTo).post, m - 1, n);
    }
  }

  lemma {:induction false} WalkReaches(world: World, post: Post, depth: nat, n: nat)
    requires Ancestor(world, post, n).Some? && depth + n <= MAX_DEPTH + 1
    ensures FetchConversationRoot(world, post, false, depth).result
      == FetchConversationRoot(world, Ancestor(world, post, n).value, false, depth + n).result
    ensures FetchConversationRoot(world, post, false, depth).calls
      == n + FetchConversationRoot(world, Ancestor(world, post, n).value, false, depth + n).calls
    decreases n
  {
    if n > 0 {
      WalkReaches(world, world(post.inReplyTo).post, depth + 1, n - 1);
    }
  }

  /** The unbounded walk from the post stops n hops up. */
  predicate EndsAt(world: World, post: Post, n: nat) {
    Ancestor(world, post, n).Some? && Stops(world, Ancestor(world, post, n).value)
  }

  /** The unbounded walk from the post fails n hops up. */
  predicate FailsAt(world: World, post: Post, n: nat) {
    && Ancestor(world, post, n).Some?
    && var last := Ancestor(world, post, n).value;
    && !Stops(world, last)
    && world(last.inReplyTo).Fails?
  }

  /** The unbounded walk gets past n hops. */
  predicate GoesPast(world: World, post: Post, n: nat) {
    Ancestor(world, post, n).Some? && !Stops(world, Ancestor(world, post, n).value)
  }

  /** At most twelve calls; the unbounded walk ends within eleven hops and the bounded one agrees with it,
      or it fails within ten and so does the bounded one, or the bounded one takes the ancestor eleven
      hops up for the root. */
  lemma BoundedWalk(world: World, post: Post)
    ensures FetchConversationRoot(world, post, false, 0).calls <= 12
    ensures forall n: nat | n <= 11 && EndsAt(world, post, n) ::
      ConversationOf(world, post) == Conversation(Answer(Ancestor(world, post, n).value))
    ensures forall n: nat | n <= 10 && FailsAt(world, post, n) :: ConversationOf(world, post) == Raised
    ensures GoesPast(world, post, 11) ==>
      ConversationOf(world, post) == Conversation(RootId(Ancestor(world, post, 11).value))
    ensures GoesPast(world, post, 11)
      || (exists n: nat :: n <= 11 && EndsAt(world, post, n))
      || (exists n: nat :: n <= 10 && FailsAt(world, post, n))
  {
    hide FailsAt, GoesPast, Answer, ConversationOf, Stops;
    forall n: nat | n <= 11 && EndsAt(world, post, n)
      ensures ConversationOf(world, post) == Conversation(Answer(Ancestor(world, post, n).value))
    {
      WalkAgreesAt(world, post, n);
    }
    forall n: nat | n <= 10 && FailsAt(world, post, n)
      ensures ConversationOf(world, post) == Raised
    {
      WalkAgreesAt(world, post, n);
    }
    WalkAgreesAt(world, post, 11);
    EndsFailsOrGoesOn(world, post);
  }

  /** The calls are one for each post the walk looks at, and one more where a parent within reach could not be
      had. A post without context that the walk ends at names the conversation after itself. */
  lemma CallsOfTheWalk(world: World, post: Post, n: nat)
    requires n <= 11 && Ancestor(world, post, n).Some?
    ensures var calls, last := FetchConversationRoot(world, post, false, 0).calls, Ancestor(world, post, n).value;
      && (EndsAt(world, post, n) ==>
            calls == n + if last.context == "" && last.inReplyTo != "" && n <= 10 then 2 else 1)
      && (n <= 10 && FailsAt(world, post, n) ==> calls == n + 1)
      && (n == 11 && GoesPast(world, post, n) ==> calls == 12)
    ensures var last := Ancestor(world, post, n).value;
      EndsAt(world, post, n) ==>
        ConversationOf(world, post)
          == Conversation(if last.context != "" then last.context else "microblogpub:root:" + last.apId)
  {
    WalkReaches(world, post, 0, n);
  }

  ghost predicate AgreesAt(world: World, post: Post, n: nat) {
    && (EndsAt(world, post, n) ==>
          ConversationOf(world, post) == Conversation(Answer(Ancestor(world, post, n).value)))
    && (n <= MAX_DEPTH && FailsAt(world, post, n) ==> ConversationOf(world, post) == Raised)
    && (n == MAX_DEPTH + 1 && GoesPast(world, post, n) ==>
          ConversationOf(world, post) == Conversation(RootId(Ancestor(world, post, n).value)))
  }

  lemma WalkAgreesAt(world: World, post: Post, n: nat)
    requires n <= MAX_DEPTH + 1
    ensures AgreesAt(world, post, n)
  {
    if Ancestor(world, post, n).Some? {
      WalkReaches(world, post, 0, n);
    }
  }

  lemma EndsFailsOrGoesOn(world: World, post: Post)
    ensures GoesPast(world, post, 11)
      || (exists n: nat :: n <= 11 && EndsAt(world, post, n))
      || (exists n: nat :: n <= 10 && FailsAt(world, post, n))
  {
    hide Stops, FetchConversationRoot;
    WalkEnds(world, post, 11);
    if Ancestor(world, post, 11).Some? && !GoesPast(world, post, 11) {
      assert EndsAt(world, post, 11);
    }
  }

  /** A walk gets that far up, or ends or fails on the way. */
  lemma {:induction false} WalkEnds(world: World, post: Post, hops: nat)
    ensures Ancestor(world, post, hops).Some?
      || exists n: nat :: n < hops && (EndsAt(world, post, n) || FailsAt(world, post, n))
  {
    if hops > 0 {
      WalkEnds(world, post, hops - 1);
      if Ancestor(world, post, hops - 1).Some? {
        AncestorsCompose(world, post, hops - 1, 1);
        var last := Ancestor(world, post, hops - 1).value;
        if Stops(world, last) {
          assert EndsAt(world, post, hops - 1);
        } else if world(last.inReplyTo).Fails? {
          assert FailsAt(world, post, hops - 1);
        } else {
          assert Ancestor(world, last, 1) == Ancestor(world, world(last.inReplyTo).post, 0);
        }
      }
    }
  }

  /** The posts from a post up to its n-th ancestor name different conversations. */
  ghost predicate NamesDiffer(world: World, post: Post, n: nat)
    requires Ancestor(world, post, n).Some?
  {
    forall i, j | 0 <= i < j <= n && Ancestor(world, post, i).Some? && Ancestor(world, post, j).Some? ::
      Answer(Ancestor(world, post, i).value) != Answer(Ancestor(world, post, j).value)
  }

  lemma LowerAncestors(world: World, post: Post, m: nat, n: nat)
    requires m < n && Ancestor(world, post, n).Some?
    ensures Ancestor(world, post, m).Some? && !Stops(world, Ancestor(world, post, m).value)
    decreases n
  {
    if m > 0 {
      LowerAncestors(world, world(post.inReplyTo).post, m - 1, n - 1);
    }
  }

  /** A walk to an end d hops up is named after that end, or after the eleventh ancestor when the end is
      further away. */
  lemma NamedAfter(world: World, post: Post, d: nat)
    requires EndsAt(world, post, d)
    ensures var k := Min(d, 11);
      Ancestor(world, post, k).Some?
      && ConversationOf(world, post) == Conversation(Answer(Ancestor(world, post, k).value))
  {
    if d > 11 {
      LowerAncestors(world, post, 11, d);
    }
    BoundedWalk(world, post);
  }

  /** Where a reply's chain ends in a post that names the conversation like no other post of the chain, the
      reply shares the conversation of an ancestor exactly when its own walk gets to that end. */
  lemma SharesTheConversationIff(world: World, reply: Post, up: nat, above: nat)
    requires up > 0 && Ancestor(world, reply, up).Some?
    requires EndsAt(world, Ancestor(world, reply, up).value, above)
    requires Ancestor(world, reply, up + above).Some? && NamesDiffer(world, reply, up + above)
    ensures ConversationOf(world, reply) == ConversationOf(world, Ancestor(world, reply, up).value)
      <==> up + above <= 11
  {
    hide ConversationOf, Answer, Stops;
    var post := Ancestor(world, reply, up).value;
    var i, j := Min(up + above, 11), Min(above, 11);
    AncestorsCompose(world, reply, up, above);
    AncestorsCompose(world, reply, up, j);
    assert EndsAt(world, reply, up + above);
    NamedAfter(world, reply, up + above);
    NamedAfter(world, post, above);
    assert Ancestor(world, reply, up + j) == Ancestor(world, post, j);
    assert i <= up + j && (i == up + j <==> up + above <= 11);
  }

  /** Whatever the names, a reply whose walk gets to the end shares the conversation of every ancestor. */
  lemma RepliesShareTheConversation(world: World, reply: Post, up: nat, above: nat)
    requires Ancestor(world, reply, up).Some?
    requires EndsAt(world, Ancestor(world, reply, up).value, above)
    requires up + above <= 11
    ensures ConversationOf(world, reply) == ConversationOf(world, Ancestor(world, reply, up).value)
  {
    hide ConversationOf, Stops;
    AncestorsCompose(world, reply, up, above);
    assert EndsAt(world, reply, up + above);
    NamedAfter(world, reply, up + above);
    NamedAfter(world, Ancestor(world, reply, up).value, above);
  }

  // ---------------------------------------------------------------- reply cycles

  /** Going n hops up from the post leads back to it. */
  predicate OnCycle(world: World, post: Post, n: nat) {
    n > 0 && Ancestor(world, post, n) == Some(post)
  }

  lemma {:induction false} AroundTheCycle(world: World, post: Post, n: nat, times: nat)
    requires OnCycle(world, post, n)
    ensures Ancestor(world, post, times * n) == Some(post)
    decreases times
  {
    if times > 0 {
      AroundTheCycle(world, post, n, times - 1);
      AncestorsCompose(world, post, n, (times - 1) * n);
      assert n + (times - 1) * n == times * n;
    }
  }

  /** Every post of a cycle is on it. */
  lemma MembersAreOnCycle(world: World, post: Post, n: nat, m: nat)
    requires OnCycle(world, post, n) && Ancestor(world, post, m).Some?
    ensures OnCycle(world, Ancestor(world, post, m).value, n)
  {
    AncestorsCompose(world, post, n, m);
    AncestorsCompose(world, post, m, n);
  }

  /** A post of a cycle is filed under the post eleven hops up. */
  lemma FiledUnderTheEleventh(world: World, post: Post, n: nat)
    requires OnCycle(world, post, n)
    ensures Ancestor(world, post, 11).Some?
      && ConversationOf(world, post) == Conversation(RootId(Ancestor(world, post, 11).value))
  {
    AroundTheCycle(world, post, n, 12);
    assert 12 * n > 11;
    LowerAncestors(world, post, 11, 12 * n);
    BoundedWalk(world, post);
  }

  /** Ids identify the posts of the chain above a post. */
  ghost predicate IdsIdentify(world: World, post: Post) {
    forall i: nat, j: nat | Ancestor(world, post, i).Some? && Ancestor(world, post, j).Some? ::
      Ancestor(world, post, i).value.apId == Ancestor(world, post, j).value.apId ==>
        Ancestor(world, post, i) == Ancestor(world, post, j)
  }

  /** Two posts of one reply cycle, of whatever length, get the same conversation only when they are the
      same post. */
  lemma CyclesDisagreeIff(world: World, post: Post, n: nat, m: nat)
    requires OnCycle(world, post, n) && Ancestor(world, post, m).Some? && IdsIdentify(world, post)
    ensures var other := Ancestor(world, post, m).value;
      ConversationOf(world, other) == ConversationOf(world, post) <==> other == post
  {
    hide ConversationOf, Ancestor, RootId, OnCycle;
    var other := Ancestor(world, post, m).value;
    MembersAreOnCycle(world, post, n, m);
    FiledUnderTheEleventh(world, post, n);
    FiledUnderTheEleventh(world, other, n);
    AncestorsCompose(world, post, m, 11);
    if ConversationOf(world, other) == ConversationOf(world, post) {
      SameRootId(Ancestor(world, post, 11).value, Ancestor(world, other, 11).value);
      assert Ancestor(world, post, m + 11) == Ancestor(world, post, 11);
      OnwardsFromTheEleventh(world, post, n);
      OnwardsFromTheEleventh(world, other, n);
    }
  }

  /** From its eleventh ancestor a post of a cycle is reached again. */
  lemma OnwardsFromTheEleventh(world: World, post: Post, n: nat)
    requires OnCycle(world, post, n) && Ancestor(world, post, 11).Some?
    ensures 12 * n - 11 > 0 && Ancestor(world, Ancestor(world, post, 11).value, 12 * n - 11) == Some(post)
  {
    hide Stops;
    AroundTheCycle(world, post, n, 12);
    AncestorsCompose(world, post, 11, 12 * n - 11);
  }

  lemma SameRootId(a: Post, b: Post)
    requires RootId(a) == RootId(b)
    ensures a.apId == b.apId
  {
    var prefix := "microblogpub:root:";
    assert RootId(a)[|prefix|..] == a.apId && RootId(b)[|prefix|..] == b.apId;
  }
}
