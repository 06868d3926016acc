/** Grouped notifications: the key of a row, the aggregate that counts a group, and the walk over pages. */
module NotificationGroups {
  import opened Base

  datatype Kind =
    | NoType | Unmapped
    | NewFollower | PendingFollower | Like | Announce | Mention | Move | Status | Update | Poll

  datatype GroupType = Favourite | Reblog | Follow

  /** A notification row, and whether the rows its actor and target ids point to still exist. */
  datatype Row = Row(
    id: nat, kind: Kind, outbox: Option<nat>, inbox: Option<nat>, day: int, hasActor: bool, hasTarget: bool)

  datatype Key = Target(kind: GroupType, target: nat) | FollowDay(day: int) | Ungrouped(row: nat)

  const WINDOW_CAP := 200

  /** A missing id and the id 0 both count as no id. */
  predicate Truthy(id: Option<nat>) {
    id.Some? && id.value != 0
  }

  function TargetId(outbox: Option<nat>, inbox: Option<nat>): Option<nat> {
    if Truthy(outbox) then outbox else inbox
  }

  function GroupTypeOf(kind: Kind): Option<GroupType> {
    match kind
    case Like => Some(Favourite)
    case Announce => Some(Reblog)
    case NewFollower => Some(Follow)
    case _ => None
  }

  predicate IsGroupable(r: Row) {
    && r.kind != NoType
    && (r.hasActor || r.kind == Poll)
    && r.kind != Unmapped
    && !((Truthy(r.outbox) || Truthy(r.inbox)) && !r.hasTarget)
  }

  /** The kinds whose rows the aggregate looks at. */
  predicate Active(kind: Kind, types: set<GroupType>) {
    GroupTypeOf(kind).Some? && GroupTypeOf(kind).value in types
  }

  function KeyFor(r: Row, types: set<GroupType>): Key {
    if !Active(r.kind, types) then Ungrouped(r.id)
    else match GroupTypeOf(r.kind).value
      case Follow => FollowDay(r.day)
      case kind =>
        match TargetId(r.outbox, r.inbox)
        case None => Ungrouped(r.id)
        case Some(target) => Target(kind, target)
  }

  function HasKey(k: Key, types: set<GroupType>): Row -> bool {
    r => KeyFor(r, types) == k
  }

  function ActiveRow(types: set<GroupType>): Row -> bool {
    (r: Row) => Active(r.kind, types)
  }

  lemma TruthyIff(id: Option<nat>)
    ensures Truthy(id) <==> id != None && id != Some(0)
  {
  }

  /** Followers of one day share a group, and so do likes, or boosts, of one post: the outbox post when there is
      one, else the inbox post. A row of any other kind, of a kind that was not asked for, or without a post, is a
      group of its own. */
  lemma KeyIs(r: Row, types: set<GroupType>)
    ensures var key := KeyFor(r, types);
      var kind := if r.kind == Like then Favourite else Reblog;
      var grouped := r.kind in {Like, Announce} && kind in types;
      && (r.kind == NewFollower && Follow in types ==> key == FollowDay(r.day))
      && (grouped && Truthy(r.outbox) ==> key == Target(kind, r.outbox.value))
      && (grouped && !Truthy(r.outbox) && r.inbox.Some? ==> key == Target(kind, r.inbox.value))
      && (grouped && !Truthy(r.outbox) && r.inbox.None? ==> key == Ungrouped(r.id))
      && (!grouped && !(r.kind == NewFollower && Follow in types) ==> key == Ungrouped(r.id))
  {
  }

  /** A row can be listed exactly when its kind has a name, its actor is there unless it is about a poll, and its
      post is there if it names one. */
  lemma GroupableIff(r: Row)
    ensures IsGroupable(r) <==>
      && r.kind !in {NoType, Unmapped}
      && (r.kind != Poll ==> r.hasActor)
      && (Truthy(r.outbox) || Truthy(r.inbox) ==> r.hasTarget)
  {
  }

  // ---------------------------------------------------------------- the aggregate

  datatype Signature = Signature(kind: Kind, outbox: Option<nat>, inbox: Option<nat>, day: int)

  datatype Bucket = Bucket(sig: Signature, count: nat)

  function SignatureOf(r: Row): Signature {
    Signature(r.kind, r.outbox, r.inbox, r.day)
  }

  function HasSignature(sig: Signature): Row -> bool {
    (r: Row) => SignatureOf(r) == sig
  }

  function OtherSignature(sig: Signature): Row -> bool {
    (r: Row) => SignatureOf(r) != sig
  }

  /** A GROUP BY over the rows: one bucket for each signature that occurs, with its number of rows. */
  ghost predicate IsAggregate(buckets: seq<Bucket>, rows: seq<Row>) {
    && (forall i, j :: 0 <= i < j < |buckets| ==> buckets[i].sig != buckets[j].sig)
    && (forall b <- buckets :: b.count == |Filter(HasSignature(b.sig), rows)| && b.count > 0)
    && (forall i :: 0 <= i < |rows| ==> exists b :: b in buckets && b.sig == SignatureOf(rows[i]))
  }

  /** The group a bucket is added to; none for a favourite or boost without a target. */
  function BucketKey(sig: Signature): Option<Key> {
    match GroupTypeOf(sig.kind)
    case None => None
    case Some(Follow) => Some(FollowDay(sig.day))
    case Some(kind) =>
      match TargetId(sig.outbox, sig.inbox)
      case None => None
      case Some(target) => Some(Target(kind, target))
  }

  function Weight(k: Key): Bucket -> int {
    (b: Bucket) => if BucketKey(b.sig) == Some(k) then b.count else 0
  }

  ghost predicate IsCounted(counts: map<Key, nat>, buckets: seq<Bucket>) {
    && (forall k :: k in counts <==> exists b :: b in buckets && BucketKey(b.sig) == Some(k))
    && (forall k <- counts :: counts[k] == Sum(Weight(k), buckets))
  }

  /** Folds the aggregate's buckets into a total for each key. */
  method GroupCounts(buckets: seq<Bucket>) returns (counts: map<Key, nat>)
    ensures IsCounted(counts, buckets)
  {
    counts := map[];
    for n := 0 to |buckets|
      invariant forall k :: k in counts <==> exists b :: b in buckets[..n] && BucketKey(b.sig) == Some(k)
      invariant forall k :: (if k in counts then counts[k] else 0) == Sum(Weight(k), buckets[..n])
    {
      var b := buckets[n];
      assert buckets[..n + 1] == buckets[..n] + [b];
      forall k
        ensures Sum(Weight(k), buckets[..n + 1]) == Sum(Weight(k), buckets[..n]) + Weight(k)(b)
      {
        SumConcat(Weight(k), buckets[..n], [b]);
      }
      var key := BucketKey(b.sig);
      if key.Some? {
        var before := if key.value in counts then counts[key.value] else 0;
        counts := counts[key.value := before + b.count];
      }
    }
    assert buckets[..|buckets|] == buckets;
  }

  lemma {:induction false} SplitBySignature(sig: Signature, p: Row -> bool, rows: seq<Row>)
    ensures |Filter(p, rows)|
      == |Filter(p, Filter(HasSignature(sig), rows))| + |Filter(p, Filter(OtherSignature(sig), rows))|
  {
    if rows != [] {
      SplitBySignature(sig, p, rows[1..]);
      FilterConcat(p, [rows[0]], Filter(HasSignature(sig), rows[1..]));
      FilterConcat(p, [rows[0]], Filter(OtherSignature(sig), rows[1..]));
    }
  }

  lemma {:induction false} FilterTwice(p: Row -> bool, q: Row -> bool, rows: seq<Row>)
    requires forall r <- rows :: p(r) ==> q(r)
    ensures Filter(p, Filter(q, rows)) == Filter(p, rows)
  {
    if rows != [] {
      FilterTwice(p, q, rows[1..]);
      FilterConcat(p, [rows[0]], Filter(q, rows[1..]));
    }
  }

  /** All rows of one signature have the key of their bucket, or none of them does. */
  lemma BucketIsUniform(b: Bucket, k: Key, types: set<GroupType>, rows: seq<Row>)
    requires !k.Ungrouped? && forall r <- rows :: Active(r.kind, types)
    requires b.count == |Filter(HasSignature(b.sig), rows)|
    ensures |Filter(HasKey(k, types), Filter(HasSignature(b.sig), rows))| == Weight(k)(b)
  {
    var same := Filter(HasSignature(b.sig), rows);
    FilterMembers(HasSignature(b.sig), rows);
    if BucketKey(b.sig) == Some(k) {
      FilterEverything(HasKey(k, types), same);
    } else {
      FilterNothing(HasKey(k, types), same);
    }
  }

  lemma RestIsAggregate(buckets: seq<Bucket>, rows: seq<Row>)
    requires IsAggregate(buckets, rows) && buckets != []
    ensures IsAggregate(buckets[1..], Filter(OtherSignature(buckets[0].sig), rows))
  {
    var other := OtherSignature(buckets[0].sig);
    var rest, left := Filter(other, rows), buckets[1..];
    FilterMembers(other, rows);
    forall b | b in left
      ensures b in buckets && b.sig != buckets[0].sig
      ensures b.count == |Filter(HasSignature(b.sig), rest)| && b.count > 0
    {
      var i :| 0 <= i < |left| && left[i] == b;
      assert buckets[i + 1] == b;
      FilterTwice(HasSignature(b.sig), other, rows);
    }
    forall i | 0 <= i < |rest|
      ensures exists b :: b in left && b.sig == SignatureOf(rest[i])
    {
      assert rest[i] in rows && SignatureOf(rest[i]) != buckets[0].sig;
      var j :| 0 <= j < |rows| && rows[j] == rest[i];
      var b :| b in buckets && b.sig == SignatureOf(rows[j]);
      var k :| 0 <= k < |buckets| && buckets[k] == b;
      assert left[k - 1] == b;
    }
    forall i, j | 0 <= i < j < |left|
      ensures left[i].sig != left[j].sig
    {
      assert left[i] == buckets[i + 1] && left[j] == buckets[j + 1];
    }
  }

  /** Folding the aggregate counts exactly the rows of each key. */
  lemma {:induction false} AggregateRefinesCount(buckets: seq<Bucket>, rows: seq<Row>, k: Key, types: set<GroupType>)
    requires IsAggregate(buckets, rows) && !k.Ungrouped?
    requires forall r <- rows :: Active(r.kind, types)
    ensures Sum(Weight(k), buckets) == |Filter(HasKey(k, types), rows)|
    decreases |buckets|
  {
    if buckets != [] {
      var sig := buckets[0].sig;
      RestIsAggregate(buckets, rows);
      FilterMembers(OtherSignature(sig), rows);
      AggregateRefinesCount(buckets[1..], Filter(OtherSignature(sig), rows), k, types);
      SplitBySignature(sig, HasKey(k, types), rows);
      BucketIsUniform(buckets[0], k, types, rows);
    }
  }

  // ---------------------------------------------------------------- one group by its key

  /** The clause that looks rows up by their key. */
  predicate Matches(k: Key, r: Row) {
    match k
    case Ungrouped(id) => r.id == id
    case FollowDay(day) => r.kind == NewFollower && r.day == day
    case Target(kind, target) =>
      GroupTypeOf(r.kind) == Some(kind) && (r.outbox == Some(target) || r.inbox == Some(target))
  }

  function MatchesKey(k: Key): Row -> bool {
    r => Matches(k, r)
  }

  /** What the clause of each key matches: the one row, the followers of the day, or the likes or boosts with the
      target in either id column. */
  lemma MatchesIff(k: Key, r: Row)
    ensures Matches(k, r) <==>
      || k == Ungrouped(r.id)
      || (r.kind == NewFollower && k == FollowDay(r.day))
      || (r.kind == Like && r.outbox.Some? && k == Target(Favourite, r.outbox.value))
      || (r.kind == Like && r.inbox.Some? && k == Target(Favourite, r.inbox.value))
      || (r.kind == Announce && r.outbox.Some? && k == Target(Reblog, r.outbox.value))
      || (r.kind == Announce && r.inbox.Some? && k == Target(Reblog, r.inbox.value))
      || (r.kind == NewFollower && k.Target? && k.kind == Follow
          && (r.outbox == Some(k.target) || r.inbox == Some(k.target)))
  {
  }

  /** Looking a key up misses no row of its group. */
  lemma LookupFindsTheGroup(r: Row, types: set<GroupType>)
    ensures Matches(KeyFor(r, types), r)
  {
  }

  /** Among rows with no id 0, a lookup by target matches a row of another group exactly when the row's
      inbox id is the target and its outbox id is a different one. */
  lemma StrayMatchIff(r: Row, kind: GroupType, target: nat, types: set<GroupType>)
    requires r.outbox != Some(0) && r.inbox != Some(0)
    requires kind != Follow && kind in types
    ensures Matches(Target(kind, target), r) && KeyFor(r, types) != Target(kind, target) <==>
      GroupTypeOf(r.kind) == Some(kind) && r.inbox == Some(target) && r.outbox.Some? && r.outbox != Some(target)
  {
  }

  /** The count shown for one group is right exactly when the lookup matches no stray row. */
  lemma {:induction false} LookupCountIff(k: Key, types: set<GroupType>, rows: seq<Row>)
    ensures |Filter(HasKey(k, types), rows)| <= |Filter(MatchesKey(k), rows)|
    ensures |Filter(MatchesKey(k), rows)| == |Filter(HasKey(k, types), rows)|
      <==> forall r <- rows :: Matches(k, r) ==> KeyFor(r, types) == k
  {
    if rows != [] {
      LookupFindsTheGroup(rows[0], types);
      LookupCountIff(k, types, rows[1..]);
      assert forall r :: r in rows <==> r == rows[0] || r in rows[1..];
    }
  }

  function Unmatched(k: Key): Row -> bool {
    r => !Matches(k, r)
  }

  function OtherKey(k: Key, types: set<GroupType>): Row -> bool {
    r => KeyFor(r, types) != k
  }

  /** The table after a group was dismissed: every row that the clause of its key matches is deleted. */
  function Dismissed(k: Key, table: seq<Row>): seq<Row> {
    Filter(Unmatched(k), table)
  }

  /** Dismissing a group leaves none of its rows, and leaves all the other rows exactly when none is stray. */
  lemma {:induction false} DismissalIff(k: Key, types: set<GroupType>, table: seq<Row>)
    ensures forall r <- Dismissed(k, table) :: KeyFor(r, types) != k
    ensures |Dismissed(k, table)| <= |Filter(OtherKey(k, types), table)|
    ensures Dismissed(k, table) == Filter(OtherKey(k, types), table)
      <==> forall r <- table :: Matches(k, r) ==> KeyFor(r, types) == k
  {
    if table != [] {
      LookupFindsTheGroup(table[0], types);
      DismissalIff(k, types, table[1..]);
      var left, others := Dismissed(k, table[1..]), Filter(OtherKey(k, types), table[1..]);
      if KeyFor(table[0], types) != k && !Matches(k, table[0]) {
        assert ([table[0]] + left)[1..] == left && ([table[0]] + others)[1..] == others;
      }
      assert forall r :: r in table <==> r == table[0] || r in table[1..];
    }
  }

  const SAMPLE_LIMIT := 4

  datatype Group = Group(key: Key, members: seq<Row>, count: nat)

  /** One group looked up by its key, among the rows the filters match, newest first. The newest row found must
      compute back to the key. */
  method FetchNotificationGroup(matching: seq<Row>, k: Key, types: set<GroupType>) returns (group: Option<Group>)
    ensures group.Some? <==>
      Filter(MatchesKey(k), matching) != [] && KeyFor(Filter(MatchesKey(k), matching)[0], types) == k
    ensures group.Some? ==>
      && group.value.key == k
      && group.value.count == |Filter(MatchesKey(k), matching)|
      && group.value.members <= Filter(MatchesKey(k), matching)
      && |group.value.members| == Min(4, group.value.count)
  {
    var found := Filter(MatchesKey(k), matching);
    var count := |found|;
    if count == 0 {
      return None;
    }
    var rows := found[..Min(SAMPLE_LIMIT, count)];
    if KeyFor(rows[0], types) != k {
      return None;
    }
    return Some(Group(k, rows, count));
  }

  /** A lookup that answers at all answers for a group that exists, and its count is that group's exactly when
      it found no stray row. */
  lemma AnsweredLookupIff(matching: seq<Row>, k: Key, types: set<GroupType>)
    requires Filter(MatchesKey(k), matching) != [] && KeyFor(Filter(MatchesKey(k), matching)[0], types) == k
    ensures |Filter(HasKey(k, types), matching)| > 0
    ensures |Filter(MatchesKey(k), matching)| == |Filter(HasKey(k, types), matching)|
      <==> forall r <- matching :: Matches(k, r) ==> KeyFor(r, types) == k
  {
    var newest := Filter(MatchesKey(k), matching)[0];
    FilterMembers(MatchesKey(k), matching);
    FilterMembers(HasKey(k, types), matching);
    assert newest in Filter(MatchesKey(k), matching);
    assert newest in Filter(HasKey(k, types), matching);
    LookupCountIff(k, types, matching);
  }

  /** The lookup of a group that exists is refused exactly when a stray row is newer than all of the group. */
  lemma LookupRefusedIff(matching: seq<Row>, k: Key, types: set<GroupType>, i: nat)
    requires i < |matching| && KeyFor(matching[i], types) == k
    requires forall j :: 0 <= j < i ==> KeyFor(matching[j], types) != k
    ensures var found := Filter(MatchesKey(k), matching);
      && found != []
      && (KeyFor(found[0], types) != k <==> exists j :: 0 <= j < i && Matches(k, matching[j]))
  {
    LookupFindsTheGroup(matching[i], types);
    FirstFound(MatchesKey(k), matching);
  }

  /** The first row that a filter keeps is the first one that satisfies it. */
  lemma {:induction false} FirstFound(p: Row -> bool, rows: seq<Row>)
    ensures Filter(p, rows) == [] <==> FirstIndex(p, rows).None?
    ensures FirstIndex(p, rows).Some? ==> Filter(p, rows)[0] == rows[FirstIndex(p, rows).value]
  {
    if rows != [] && !p(rows[0]) {
      FirstFound(p, rows[1..]);
    }
  }

  // ---------------------------------------------------------------- a page

  function Groupable(): Row -> bool {
    (r: Row) => IsGroupable(r)
  }

  function WithKey(seen: seq<Key>, k: Key): seq<Key> {
    if k in seen then seen else seen + [k]
  }

  /** The keys of the rows, in first-seen order, after those already seen. */
  function SeenFrom(seen: seq<Key>, rows: seq<Row>, types: set<GroupType>): seq<Key>
    decreases |rows|
  {
    if rows == [] then seen else SeenFrom(WithKey(seen, KeyFor(rows[0], types)), rows[1..], types)
  }

  lemma {:induction false} SeenSnoc(seen: seq<Key>, rows: seq<Row>, r: Row, types: set<GroupType>)
    ensures SeenFrom(seen, rows + [r], types) == WithKey(SeenFrom(seen, rows, types), KeyFor(r, types))
    decreases |rows|
  {
    if rows != [] {
      assert (rows + [r])[1..] == rows[1..] + [r];
      SeenSnoc(WithKey(seen, KeyFor(rows[0], types)), rows[1..], r, types);
    } else {
      assert ([r])[1..] == [];
    }
  }

  /** How many rows the assembly gets through before a key would exceed the limit. */
  function Cut(rows: seq<Row>, types: set<GroupType>, limit: nat, seen: seq<Key>): (n: nat)
    ensures n <= |rows|
  {
    if rows == [] then 0
    else if !IsGroupable(rows[0]) then 1 + Cut(rows[1..], types, limit, seen)
    else if KeyFor(rows[0], types) !in seen && |seen| >= limit then 0
    else 1 + Cut(rows[1..], types, limit, WithKey(seen, KeyFor(rows[0], types)))
  }

  /** An assembly stops early only at a row that would start one group too many. */
  lemma {:induction false} CutOnlyWhenFull(rows: seq<Row>, types: set<GroupType>, limit: nat, seen: seq<Key>)
    requires |seen| <= limit
    ensures var cut := Cut(rows, types, limit, seen);
      var order := SeenFrom(seen, Filter(Groupable(), rows[..cut]), types);
      && |order| <= limit
      && (cut < |rows| ==>
            IsGroupable(rows[cut]) && KeyFor(rows[cut], types) !in order && |order| == limit)
  {
    hide KeyFor, IsGroupable;
    var cut := Cut(rows, types, limit, seen);
    if cut > 0 {
      assert rows[..cut][1..] == rows[1..][..cut - 1];
      if IsGroupable(rows[0]) {
        CutOnlyWhenFull(rows[1..], types, limit, WithKey(seen, KeyFor(rows[0], types)));
      } else {
        CutOnlyWhenFull(rows[1..], types, limit, seen);
      }
    }
  }

  function WindowSize(limit: nat): nat {
    Min(limit * 4, WINDOW_CAP)
  }

  function Window(rows: seq<Row>, limit: nat): (window: seq<Row>)
    ensures window <= rows && |window| == Min(Min(4 * limit, 200), |rows|)
  {
    rows[..Min(WindowSize(limit), |rows|)]
  }

  /** The rows a page lists, newest first. */
  function Listed(rows: seq<Row>, types: set<GroupType>, limit: nat): seq<Row> {
    var window := Window(rows, limit);
    Filter(Groupable(), window[..Cut(window, types, limit, [])])
  }

  /** A page looks at the rows below the one bound and above the other, where they are given. */
  lemma InCursorIff(maxId: Option<int>, cursor: Option<int>, r: Row)
    ensures InCursor(maxId, cursor)(r) <==>
      && (maxId == None || maxId.value - r.id > 0) && (cursor == None || r.id - cursor.value > 0)
  {
  }

  ghost predicate Descending(rows: seq<Row>) {
    forall i, j :: 0 <= i < j < |rows| ==> rows[i].id > rows[j].id
  }

  function InCursor(maxId: Option<int>, cursor: Option<int>): Row -> bool {
    (r: Row) => (maxId.Some? ==> r.id < maxId.value) && (cursor.Some? ==> r.id > cursor.value)
  }

  /** The groups of the listed rows: their keys in first-seen order and the members of each. */
  ghost predicate Folded(order: seq<Key>, members: map<Key, seq<Row>>, listed: seq<Row>, types: set<GroupType>) {
    && order == SeenFrom([], listed, types)
    && (forall k :: k in members <==> k in order)
    && (forall k :: (if k in members then members[k] else []) == Filter(HasKey(k, types), listed))
    && (forall k <- members :: members[k] != [])
  }

  function AddMember(members: map<Key, seq<Row>>, k: Key, r: Row): map<Key, seq<Row>> {
    members[k := (if k in members then members[k] else []) + [r]]
  }

  lemma FoldStep(order: seq<Key>, members: map<Key, seq<Row>>, listed: seq<Row>, r: Row, types: set<GroupType>)
    requires Folded(order, members, listed, types)
    ensures Folded(WithKey(order, KeyFor(r, types)), AddMember(members, KeyFor(r, types), r), listed + [r], types)
  {
    hide KeyFor, SeenFrom, Filter;
    SeenSnoc([], listed, r, types);
    var added := AddMember(members, KeyFor(r, types), r);
    forall k
      ensures (if k in added then added[k] else []) == Filter(HasKey(k, types), listed + [r])
    {
      FilterSnoc(HasKey(k, types), listed, r);
    }
  }

  /** The window's rows, folded into groups until a key would exceed the limit. */
  method Assemble(window: seq<Row>, types: set<GroupType>, limit: nat)
    returns (order: seq<Key>, members: map<Key, seq<Row>>)
    ensures Folded(order, members, Filter(Groupable(), window[..Cut(window, types, limit, [])]), types)
    ensures |order| <= limit
  {
    hide Folded, KeyFor, IsGroupable;
    order, members := [], map[];
    ghost var listed: seq<Row> := [];
    assert Folded(order, members, listed, types) by {
      NothingFolded(types);
    }
    var n := 0;
    while n < |window|
      invariant n <= |window|
      invariant Cut(window, types, limit, []) == n + Cut(window[n..], types, limit, order)
      invariant listed == Filter(Groupable(), window[..n])
      invariant Folded(order, members, listed, types) && |order| <= limit
    {
      var r := window[n];
      assert window[..n + 1] == window[..n] + [r];
      FilterSnoc(Groupable(), window[..n], r);
      if IsGroupable(r) {
        var key := KeyFor(r, types);
        if key !in order && |order| >= limit {
          break;
        }
        FoldStep(order, members, listed, r, types);
        order := WithKey(order, key);
        members := AddMember(members, key, r);
        listed := listed + [r];
      }
      n := n + 1;
    }
  }

  lemma NothingFolded(types: set<GroupType>)
    ensures Folded([], map[], [], types)
  {
  }

  lemma DescendingIsDistinct(rows: seq<Row>)
    requires Descending(rows)
    ensures Distinct(rows)
  {
  }

  /** What a page lists are rows the filters match, each once. */
  lemma ListedAreMatching(matching: seq<Row>, p: Row -> bool, types: set<GroupType>, limit: nat)
    requires Descending(matching)
    ensures var listed := Listed(Filter(p, matching), types, limit);
      Distinct(listed) && forall r <- listed :: r in matching && IsGroupable(r)
  {
    var window := Window(Filter(p, matching), limit);
    var cut := Cut(window, types, limit, []);
    DescendingIsDistinct(matching);
    FilterDistinct(p, matching);
    FilterMembers(p, matching);
    FilterDistinct(Groupable(), window[..cut]);
    FilterMembers(Groupable(), window[..cut]);
  }

  lemma PartOfGroup(listed: seq<Row>, matching: seq<Row>, p: Row -> bool)
    requires Distinct(listed) && forall r <- listed :: r in matching
    ensures |Filter(p, listed)| <= |Filter(p, matching)|
  {
    FilterDistinct(p, listed);
    FilterMembers(p, listed);
    FilterMembers(p, matching);
    DistinctFits(Filter(p, listed), Filter(p, matching));
  }

  lemma {:induction false} FilterDescending(p: Row -> bool, rows: seq<Row>)
    requires Descending(rows)
    ensures Descending(Filter(p, rows))
  {
    if rows != [] {
      FilterDescending(p, rows[1..]);
      FilterMembers(p, rows[1..]);
      forall r | r in rows[1..]
        ensures rows[0].id > r.id
      {
        var i :| 0 <= i < |rows| - 1 && rows[1..][i] == r;
        assert rows[i + 1] == r;
      }
    }
  }

  lemma UngroupedIsAlone(matching: seq<Row>, id: nat, types: set<GroupType>)
    requires Descending(matching)
    ensures |Filter(HasKey(Ungrouped(id), types), matching)| <= 1
  {
    var p := HasKey(Ungrouped(id), types);
    FilterDescending(p, matching);
    FilterMembers(p, matching);
    var found := Filter(p, matching);
    forall i | 0 <= i < |found|
      ensures found[i].id == id
    {
      assert found[i] in found && p(found[i]);
    }
    if |found| > 1 {
      NewestIsNotSecond(found);
    }
  }

  lemma NewestIsNotSecond(rows: seq<Row>)
    requires Descending(rows) && |rows| > 1
    ensures rows[0].id != rows[1].id
  {
  }

  /** The key of an active row is the key of its bucket. */
  lemma MemberIsCounted(r: Row, rows: seq<Row>, buckets: seq<Bucket>, counts: map<Key, nat>, types: set<GroupType>)
    requires IsAggregate(buckets, rows) && IsCounted(counts, buckets) && r in rows
    requires !KeyFor(r, types).Ungrouped?
    ensures KeyFor(r, types) in counts
  {
    var i :| 0 <= i < |rows| && rows[i] == r;
    var b :| b in buckets && b.sig == SignatureOf(rows[i]);
    assert BucketKey(b.sig) == Some(KeyFor(r, types));
  }

  /** The total shown for a listed group is the number of matching rows with its key. */
  lemma CountIsTrue(matching: seq<Row>, buckets: seq<Bucket>, types: set<GroupType>, member: Row,
      counts: map<Key, nat>, listed: seq<Row>)
    requires Descending(matching) && IsAggregate(buckets, Filter(ActiveRow(types), matching))
    requires IsCounted(counts, buckets)
    requires Distinct(listed) && (forall r <- listed :: r in matching) && member in listed
    ensures var key := KeyFor(member, types);
      && var total, shown := |Filter(HasKey(key, types), matching)|, |Filter(HasKey(key, types), listed)|;
      && total == (if key in counts then counts[key] else shown)
      && total >= shown > 0
  {
    var key := KeyFor(member, types);
    FilterMembers(HasKey(key, types), listed);
    PartOfGroup(listed, matching, HasKey(key, types));
    if key.Ungrouped? {
      UngroupedIsAlone(matching, key.row, types);
    } else {
      ActiveCount(matching, buckets, types, member, counts);
    }
  }

  lemma ActiveCount(matching: seq<Row>, buckets: seq<Bucket>, types: set<GroupType>, member: Row, counts: map<Key, nat>)
    requires IsAggregate(buckets, Filter(ActiveRow(types), matching)) && IsCounted(counts, buckets)
    requires member in matching && !KeyFor(member, types).Ungrouped?
    ensures var key := KeyFor(member, types);
      key in counts && counts[key] == |Filter(HasKey(key, types), matching)|
  {
    hide IsAggregate;
    var key := KeyFor(member, types);
    var active := Filter(ActiveRow(types), matching);
    FilterMembers(ActiveRow(types), matching);
    MemberIsCounted(member, active, buckets, counts, types);
    AggregateRefinesCount(buckets, active, key, types);
    FilterTwice(HasKey(key, types), ActiveRow(types), matching);
  }

  ghost predicate IsPage(groups: seq<Group>, listed: seq<Row>, matching: seq<Row>, types: set<GroupType>) {
    && |groups| == |SeenFrom([], listed, types)|
    && forall i :: 0 <= i < |groups| ==>
         && groups[i].key == SeenFrom([], listed, types)[i]
         && groups[i].members == Filter(HasKey(groups[i].key, types), listed)
         && groups[i].count == |Filter(HasKey(groups[i].key, types), matching)|
         && groups[i].count >= |groups[i].members| > 0
  }

  lemma GroupIsTrue(matching: seq<Row>, buckets: seq<Bucket>, types: set<GroupType>, counts: map<Key, nat>,
      order: seq<Key>, members: map<Key, seq<Row>>, listed: seq<Row>, n: nat)
    requires Descending(matching) && IsAggregate(buckets, Filter(ActiveRow(types), matching))
    requires IsCounted(counts, buckets)
    requires Distinct(listed) && (forall r <- listed :: r in matching)
    requires Folded(order, members, listed, types) && n < |order|
    ensures var key := order[n];
      && key in members && members[key] == Filter(HasKey(key, types), listed)
      && var total := if key in counts then counts[key] else |members[key]|;
         total == |Filter(HasKey(key, types), matching)| && total >= |members[key]| > 0
  {
    var key := order[n];
    FilterMembers(HasKey(key, types), listed);
    var member := members[key][0];
    assert member in Filter(HasKey(key, types), listed);
    CountIsTrue(matching, buckets, types, member, counts, listed);
  }

  /** The newest row listed for a key. */
  function NewestOf(listed: seq<Row>, k: Key, types: set<GroupType>): Option<Row> {
    var members := Filter(HasKey(k, types), listed);
    if members == [] then None else Some(members[0])
  }

  lemma NewestOfSnoc(init: seq<Row>, last: Row, k: Key, types: set<GroupType>)
    ensures NewestOf(init + [last], k, types) ==
      if NewestOf(init, k, types).None? && KeyFor(last, types) == k then Some(last) else NewestOf(init, k, types)
  {
    FilterSnoc(HasKey(k, types), init, last);
  }

  lemma SeenHasNewest(rows: seq<Row>, k: Key, types: set<GroupType>)
    ensures k in SeenFrom([], rows, types) <==> NewestOf(rows, k, types).Some?
    ensures k in SeenFrom([], rows, types) ==> NewestOf(rows, k, types).value in rows
  {
    SeenMembers([], rows, types);
    FilterMembers(HasKey(k, types), rows);
    if k in SeenFrom([], rows, types) {
      var r :| r in rows && KeyFor(r, types) == k;
      assert r in Filter(HasKey(k, types), rows);
    } else {
      FilterNothing(HasKey(k, types), rows);
    }
  }

  /** Groups come in the order of their newest notification. */
  lemma {:induction false} GroupsNewestFirst(listed: seq<Row>, types: set<GroupType>, i: nat, j: nat)
    requires Descending(listed) && i < j < |SeenFrom([], listed, types)|
    ensures var order := SeenFrom([], listed, types);
      var a, b := NewestOf(listed, order[i], types), NewestOf(listed, order[j], types);
      a.Some? && b.Some? && a.value.id > b.value.id
    decreases |listed|
  {
    hide KeyFor, NewestOf;
    var n := |listed| - 1;
    var init, last := listed[..n], listed[n];
    var before, order := SeenFrom([], init, types), SeenFrom([], listed, types);
    assert listed == init + [last];
    SeenSnoc([], init, last, types);
    NewestOfSnoc(init, last, order[i], types);
    NewestOfSnoc(init, last, order[j], types);
    if j < |before| {
      GroupsNewestFirst(init, types, i, j);
    } else {
      SeenHasNewest(init, order[i], types);
      SeenHasNewest(init, KeyFor(last, types), types);
    }
  }

  /** One page of groups; `matching` are the rows the filters match, newest first. */
  method FetchNotificationGroupPage(matching: seq<Row>, buckets: seq<Bucket>, types: set<GroupType>, limit: nat,
      maxId: Option<int>, cursor: Option<int>)
    returns (groups: seq<Group>)
    requires Descending(matching) && IsAggregate(buckets, Filter(ActiveRow(types), matching))
    ensures |groups| <= limit
    ensures IsPage(groups, Listed(Filter(InCursor(maxId, cursor), matching), types, limit), matching, types)
  {
    hide IsAggregate, IsCounted, Descending, Distinct, Filter, SeenFrom, Cut, KeyFor, IsGroupable;
    var window := Window(Filter(InCursor(maxId, cursor), matching), limit);
    var order, members := Assemble(window, types, limit);
    ghost var listed := Listed(Filter(InCursor(maxId, cursor), matching), types, limit);
    var counts := GroupCounts(buckets);
    ListedAreMatching(matching, InCursor(maxId, cursor), types, limit);
    groups := [];
    for n := 0 to |order|
      invariant |groups| == n
      invariant forall i :: 0 <= i < n ==>
        && groups[i].key == order[i]
        && groups[i].members == Filter(HasKey(order[i], types), listed)
        && groups[i].count == |Filter(HasKey(order[i], types), matching)|
        && groups[i].count >= |groups[i].members| > 0
    {
      var key := order[n];
      GroupIsTrue(matching, buckets, types, counts, order, members, listed, n);
      var count := if key in counts then counts[key] else |members[key]|;
      groups := groups + [Group(key, members[key], count)];
    }
  }

  // ---------------------------------------------------------------- walking the pages

  /** The smallest id a page lists for a group. */
  function PageMinId(listed: seq<Row>, k: Key, types: set<GroupType>): nat {
    var members := Filter(HasKey(k, types), listed);
    if members == [] then 0 else members[|members| - 1].id
  }

  /** How a client chooses the next page's max_id: the smallest page_min_id of the page's groups, or the
      last group's, which is what the Link header offers. */
  datatype Pager = Smallest | LastGroup

  function NextMaxId(pager: Pager, listed: seq<Row>, types: set<GroupType>): nat
    requires listed != []
  {
    match pager
    case Smallest => listed[|listed| - 1].id
    case LastGroup =>
      var order := SeenFrom([], listed, types);
      if order == [] then 0 else PageMinId(listed, order[|order| - 1], types)
  }

  function Below(rows: seq<Row>, maxId: int): seq<Row> {
    Filter(InCursor(Some(maxId), None), rows)
  }

  lemma {:induction false} SeenMembers(seen: seq<Key>, rows: seq<Row>, types: set<GroupType>)
    ensures seen <= SeenFrom(seen, rows, types)
    ensures forall k ::
      k in SeenFrom(seen, rows, types) <==> k in seen || exists r :: r in rows && KeyFor(r, types) == k
    decreases |rows|
  {
    if rows != [] {
      SeenMembers(WithKey(seen, KeyFor(rows[0], types)), rows[1..], types);
      assert forall r :: r in rows <==> r == rows[0] || r in rows[1..];
    }
  }

  /** The last row listed for a key is one of the page's rows. */
  lemma PageMinIsListed(listed: seq<Row>, k: Key, types: set<GroupType>)
    requires k in SeenFrom([], listed, types)
    ensures exists r :: r in listed && KeyFor(r, types) == k && r.id == PageMinId(listed, k, types)
  {
    SeenMembers([], listed, types);
    FilterMembers(HasKey(k, types), listed);
    var members := Filter(HasKey(k, types), listed);
    var r :| r in listed && KeyFor(r, types) == k;
    assert r in members;
    assert members[|members| - 1] in members;
  }

  /** Smallest is the minimum of the groups' page_min_ids. */
  lemma SmallestIsMinimum(listed: seq<Row>, types: set<GroupType>)
    requires listed != [] && Descending(listed)
    ensures forall k <- SeenFrom([], listed, types) ::
      NextMaxId(Smallest, listed, types) <= PageMinId(listed, k, types)
    ensures var k := KeyFor(listed[|listed| - 1], types);
      k in SeenFrom([], listed, types) && NextMaxId(Smallest, listed, types) == PageMinId(listed, k, types)
  {
    hide SeenFrom, KeyFor, PageMinId;
    forall k | k in SeenFrom([], listed, types)
      ensures listed[|listed| - 1].id <= PageMinId(listed, k, types)
    {
      PageMinIsListed(listed, k, types);
    }
    SeenMembers([], listed, types);
    LastIsItsGroupsMin(listed, types);
  }

  lemma LastIsItsGroupsMin(listed: seq<Row>, types: set<GroupType>)
    requires listed != []
    ensures PageMinId(listed, KeyFor(listed[|listed| - 1], types), types) == listed[|listed| - 1].id
  {
    var last := listed[|listed| - 1];
    assert listed == listed[..|listed| - 1] + [last];
    FilterSnoc(HasKey(KeyFor(last, types), types), listed[..|listed| - 1], last);
  }

  lemma NextIsListed(listed: seq<Row>, pager: Pager, types: set<GroupType>) returns (r: Row)
    requires listed != []
    ensures r in listed && r.id == NextMaxId(pager, listed, types)
  {
    hide KeyFor, SeenFrom, PageMinId;
    r := listed[|listed| - 1];
    if pager == LastGroup {
      var order := SeenFrom([], listed, types);
      SeenMembers([], listed, types);
      assert KeyFor(r, types) in order;
      PageMinIsListed(listed, order[|order| - 1], types);
      r :| r in listed && r.id == NextMaxId(LastGroup, listed, types);
    }
  }

  /** The position of a row the page lists, and what lies behind it. */
  lemma NextStart(rows: seq<Row>, pager: Pager, types: set<GroupType>, limit: nat) returns (q: nat)
    requires Descending(rows) && Listed(rows, types, limit) != []
    ensures var window := Window(rows, limit);
      && q < Cut(window, types, limit, []) && IsGroupable(rows[q])
      && rows[q].id == NextMaxId(pager, Listed(rows, types, limit), types)
      && Below(rows, rows[q].id) == rows[q + 1..]
  {
    hide Cut, IsGroupable, NextMaxId, Below;
    var window := Window(rows, limit);
    var cut := Cut(window, types, limit, []);
    var r := NextIsListed(Listed(rows, types, limit), pager, types);
    FilterMembers(Groupable(), window[..cut]);
    assert r in window[..cut];
    q :| q < cut && window[..cut][q] == r;
    assert rows[q] == r;
    BelowIsSuffix(rows, q);
  }

  lemma BelowIsSuffix(rows: seq<Row>, q: nat)
    requires Descending(rows) && q < |rows|
    ensures Below(rows, rows[q].id) == rows[q + 1..]
  {
    var p := InCursor(Some(rows[q].id), None);
    assert rows == rows[..q + 1] + rows[q + 1..];
    FilterConcat(p, rows[..q + 1], rows[q + 1..]);
    FilterNothing(p, rows[..q + 1]);
    FilterEverything(p, rows[q + 1..]);
  }

  /** Page after page, each starting below the id the pager picks from the one before. */
  function Walk(rows: seq<Row>, pager: Pager, types: set<GroupType>, limit: nat): seq<Row>
    requires Descending(rows)
    decreases |rows|
  {
    var listed := Listed(rows, types, limit);
    if listed == [] then [] else
      var next := Below(rows, NextMaxId(pager, listed, types));
      NextIsShorter(rows, pager, types, limit);
      listed + Walk(next, pager, types, limit)
  }

  lemma NextIsShorter(rows: seq<Row>, pager: Pager, types: set<GroupType>, limit: nat)
    requires Descending(rows) && Listed(rows, types, limit) != []
    ensures var next := Below(rows, NextMaxId(pager, Listed(rows, types, limit), types));
      |next| < |rows| && Descending(next)
  {
    var q := NextStart(rows, pager, types, limit);
  }

  /** A window's worth of rows that cannot be grouped, with a row that can behind it. */
  ghost predicate GapAt(rows: seq<Row>, size: nat, i: nat) {
    && i + size <= |rows|
    && (forall k :: i <= k < i + size ==> !IsGroupable(rows[k]))
    && exists j :: i + size <= j < |rows| && IsGroupable(rows[j])
  }

  ghost predicate HasGap(rows: seq<Row>, size: nat) {
    exists i: nat :: GapAt(rows, size, i)
  }

  lemma GapInSuffix(rows: seq<Row>, size: nat, n: nat)
    requires n <= |rows| && HasGap(rows[n..], size)
    ensures HasGap(rows, size)
  {
    var i: nat :| GapAt(rows[n..], size, i);
    var j :| i + size <= j < |rows[n..]| && IsGroupable(rows[n..][j]);
    assert IsGroupable(rows[n + j]);
    forall k | n + i <= k < n + i + size
      ensures !IsGroupable(rows[k])
    {
      assert rows[k] == rows[n..][k - n];
    }
    assert GapAt(rows, size, n + i);
  }

  /** With room for a group, an assembly gets past every row of a window up to its first groupable one. */
  lemma {:induction false} CutPassesFirst(window: seq<Row>, types: set<GroupType>, limit: nat, q: nat)
    requires limit > 0 && q < |window| && IsGroupable(window[q])
    ensures Filter(Groupable(), window[..Cut(window, types, limit, [])]) != []
  {
    var cut := Cut(window, types, limit, []);
    if IsGroupable(window[0]) {
      assert window[..cut][0] == window[0];
    } else {
      CutPassesFirst(window[1..], types, limit, q - 1);
      assert window[..cut][1..] == window[1..][..cut - 1];
    }
  }

  /** An empty page with no gap ahead means that nothing groupable is left. */
  lemma EmptyPageIsTheEnd(rows: seq<Row>, types: set<GroupType>, limit: nat)
    requires limit > 0 && Listed(rows, types, limit) == [] && !HasGap(rows, WindowSize(limit))
    ensures forall r <- rows :: !IsGroupable(r)
  {
    var window := Window(rows, limit);
    forall k | 0 <= k < |rows|
      ensures !IsGroupable(rows[k])
    {
      if IsGroupable(rows[k]) {
        if k < |window| {
          CutPassesFirst(window, types, limit, k);
        } else {
          forall i | 0 <= i < |window|
            ensures !IsGroupable(rows[i])
          {
            if IsGroupable(rows[i]) {
              CutPassesFirst(window, types, limit, i);
            }
          }
          assert GapAt(rows, WindowSize(limit), 0);
        }
      }
    }
  }

  /** Following the smallest page_min_id lists every groupable row exactly once, newest first. */
  lemma {:induction false} SmallestListsEachOnce(rows: seq<Row>, types: set<GroupType>, limit: nat)
    requires Descending(rows) && limit > 0 && !HasGap(rows, WindowSize(limit))
    ensures Walk(rows, Smallest, types, limit) == Filter(Groupable(), rows)
    decreases |rows|
  {
    hide HasGap, Listed, Cut, NextMaxId, WindowSize, IsGroupable;
    var listed := Listed(rows, types, limit);
    if listed == [] {
      EmptyPageIsTheEnd(rows, types, limit);
      FilterNothing(Groupable(), rows);
    } else {
      var q := NextStart(rows, Smallest, types, limit);
      var cut := Cut(Window(rows, limit), types, limit, []);
      if HasGap(rows[q + 1..], WindowSize(limit)) {
        GapInSuffix(rows, WindowSize(limit), q + 1);
      }
      SmallestListsEachOnce(rows[q + 1..], types, limit);
      LastListedEndsThePage(rows, types, limit, q);
      assert rows == rows[..q + 1] + rows[q + 1..];
      FilterConcat(Groupable(), rows[..q + 1], rows[q + 1..]);
    }
  }

  /** Behind the last listed row the page passed only rows that cannot be grouped. */
  lemma LastListedEndsThePage(rows: seq<Row>, types: set<GroupType>, limit: nat, q: nat)
    requires Descending(rows) && Listed(rows, types, limit) != []
    requires q < Cut(Window(rows, limit), types, limit, [])
    requires rows[q].id == NextMaxId(Smallest, Listed(rows, types, limit), types)
    ensures Listed(rows, types, limit) == Filter(Groupable(), rows[..q + 1])
  {
    var cut := Cut(Window(rows, limit), types, limit, []);
    var listed := Listed(rows, types, limit);
    var tail := rows[q + 1..cut];
    assert Window(rows, limit)[..cut] == rows[..cut] == rows[..q + 1] + tail;
    FilterConcat(Groupable(), rows[..q + 1], tail);
    var rest := Filter(Groupable(), tail);
    assert rest != [] ==> rest[|rest| - 1] in rest && rest[|rest| - 1] == listed[|listed| - 1];
    FilterMembers(Groupable(), tail);
    LaterIsSmaller(rows, q, cut);
  }

  lemma LaterIsSmaller(rows: seq<Row>, q: nat, cut: nat)
    requires Descending(rows) && q < cut <= |rows|
    ensures forall r <- rows[q + 1..cut] :: r.id < rows[q].id
  {
  }

  lemma PageStopsBeforeGap(rows: seq<Row>, types: set<GroupType>, limit: nat, i: nat)
    requires GapAt(rows, WindowSize(limit), i)
    ensures forall r <- Listed(rows, types, limit) :: r in rows[..i]
    ensures forall q: nat :: q < |Window(rows, limit)| && IsGroupable(rows[q]) ==> q < i
  {
    var window := Window(rows, limit);
    var cut := Cut(window, types, limit, []);
    FilterMembers(Groupable(), window[..cut]);
    forall r | r in Listed(rows, types, limit)
      ensures r in rows[..i]
    {
      var k :| 0 <= k < cut && window[..cut][k] == r;
      assert rows[k] == r && k < i;
    }
  }

  lemma GapInRest(rows: seq<Row>, size: nat, i: nat, n: nat)
    requires GapAt(rows, size, i) && n <= i
    ensures GapAt(rows[n..], size, i - n)
  {
    var j :| i + size <= j < |rows| && IsGroupable(rows[j]);
    assert rows[n..][j - n] == rows[j];
  }

  /** Whatever the pager, the walk never gets behind a gap. */
  lemma {:induction false} GapEndsTheWalk(rows: seq<Row>, pager: Pager, types: set<GroupType>, limit: nat, i: nat)
    requires Descending(rows) && GapAt(rows, WindowSize(limit), i)
    ensures forall r <- Walk(rows, pager, types, limit) :: r in rows[..i]
    decreases |rows|
  {
    hide GapAt, Listed, Cut, NextMaxId, WindowSize, IsGroupable;
    PageStopsBeforeGap(rows, types, limit, i);
    if Listed(rows, types, limit) != [] {
      var q := NextStart(rows, pager, types, limit);
      GapInRest(rows, WindowSize(limit), i, q + 1);
      GapEndsTheWalk(rows[q + 1..], pager, types, limit, i - (q + 1));
      assert rows[..i] == rows[..q + 1] + rows[q + 1..][..i - (q + 1)];
    }
  }

  /** The walk misses a groupable row exactly when a whole window of rows that cannot be grouped has a
      groupable row behind it. */
  lemma WalkLosesIff(rows: seq<Row>, types: set<GroupType>, limit: nat, pager: Pager)
    requires Descending(rows) && limit > 0
    ensures (exists r :: r in rows && IsGroupable(r) && r !in Walk(rows, pager, types, limit))
      <==> HasGap(rows, WindowSize(limit))
  {
    if HasGap(rows, WindowSize(limit)) {
      var i: nat :| GapAt(rows, WindowSize(limit), i);
      var j :| i + WindowSize(limit) <= j < |rows| && IsGroupable(rows[j]);
      GapEndsTheWalk(rows, pager, types, limit, i);
      assert rows[j] in rows && rows[j] !in rows[..i];
    } else {
      WalkFindsAll(rows, pager, types, limit);
    }
  }

  /** Every groupable row is on the page or behind any row the page got past. */
  lemma PageCovers(rows: seq<Row>, types: set<GroupType>, limit: nat, q: nat)
    requires q < Cut(Window(rows, limit), types, limit, [])
    ensures forall r :: r in rows && IsGroupable(r) ==> r in Listed(rows, types, limit) || r in rows[q + 1..]
    ensures forall r <- Listed(rows, types, limit) :: r in rows && IsGroupable(r)
  {
    var window := Window(rows, limit);
    var cut := Cut(window, types, limit, []);
    FilterMembers(Groupable(), window[..cut]);
    assert window[..cut] == rows[..cut] && rows == rows[..cut] + rows[cut..];
    assert rows[q + 1..] == rows[q + 1..cut] + rows[cut..];
  }

  lemma {:induction false} WalkFindsAll(rows: seq<Row>, pager: Pager, types: set<GroupType>, limit: nat)
    requires Descending(rows) && limit > 0 && !HasGap(rows, WindowSize(limit))
    ensures forall r :: r in Walk(rows, pager, types, limit) <==> r in rows && IsGroupable(r)
    decreases |rows|
  {
    hide HasGap, Listed, Cut, NextMaxId, WindowSize, IsGroupable;
    if Listed(rows, types, limit) == [] {
      EmptyPageIsTheEnd(rows, types, limit);
    } else {
      var q := NextStart(rows, pager, types, limit);
      if HasGap(rows[q + 1..], WindowSize(limit)) {
        GapInSuffix(rows, WindowSize(limit), q + 1);
      }
      WalkFindsAll(rows[q + 1..], pager, types, limit);
      PageCovers(rows, types, limit, q);
      assert rows == rows[..q + 1] + rows[q + 1..];
    }
  }

  // ---------------------------------------------------------------- the Link header's cursor

  /** Rows whose keys all come from a small enough set never fill a page up. */
  lemma {:induction false} CutCovers(rows: seq<Row>, types: set<GroupType>, limit: nat, seen: seq<Key>, n: nat,
      allowed: seq<Key>)
    requires n <= |rows| && |allowed| <= limit
    requires Distinct(seen) && forall k <- seen :: k in allowed
    requires forall i :: 0 <= i < n && IsGroupable(rows[i]) ==> KeyFor(rows[i], types) in allowed
    ensures Cut(rows, types, limit, seen) >= n
  {
    hide KeyFor, IsGroupable;
    if n > 0 {
      if !IsGroupable(rows[0]) {
        CutCovers(rows[1..], types, limit, seen, n - 1, allowed);
      } else {
        var key := KeyFor(rows[0], types);
        if key !in seen {
          DistinctFits(seen + [key], allowed);
        }
        CutCovers(rows[1..], types, limit, WithKey(seen, key), n - 1, allowed);
      }
    }
  }

  lemma NextPageGetsAsFar(rows: seq<Row>, types: set<GroupType>, limit: nat, q: nat)
    requires q < Cut(Window(rows, limit), types, limit, [])
    ensures Cut(Window(rows[q + 1..], limit), types, limit, []) >= Cut(Window(rows, limit), types, limit, []) - (q + 1)
  {
    hide KeyFor, IsGroupable;
    var window, again := Window(rows, limit), Window(rows[q + 1..], limit);
    var cut := Cut(window, types, limit, []);
    var listed := Filter(Groupable(), window[..cut]);
    CutOnlyWhenFull(window, types, limit, []);
    SeenMembers([], listed, types);
    FilterMembers(Groupable(), window[..cut]);
    forall i | 0 <= i < cut - (q + 1) && IsGroupable(again[i])
      ensures KeyFor(again[i], types) in SeenFrom([], listed, types)
    {
      assert window[..cut][q + 1 + i] == again[i];
      assert again[i] in listed;
    }
    CutCovers(again, types, limit, [], cut - (q + 1), SeenFrom([], listed, types));
  }

  /** With the Link header's cursor, the next page lists again, first and in order, the rows of earlier
      groups that the page listed below the last group's oldest row. */
  lemma LinkHeaderRepeats(rows: seq<Row>, types: set<GroupType>, limit: nat)
    requires Descending(rows) && Listed(rows, types, limit) != []
    ensures var listed := Listed(rows, types, limit);
      var next := NextMaxId(LastGroup, listed, types);
      Below(listed, next) <= Listed(Below(rows, next), types, limit)
  {
    hide Cut, NextMaxId, IsGroupable, Below;
    var q := NextStart(rows, LastGroup, types, limit);
    var cut := Cut(Window(rows, limit), types, limit, []);
    var rest := rows[q + 1..];
    var again := Window(rest, limit);
    var n, cut' := cut - (q + 1), Cut(again, types, limit, []);
    NextPageGetsAsFar(rows, types, limit, q);
    RepeatedPart(rows, cut, q);
    assert Window(rows, limit)[..cut] == rows[..cut];
    assert again[..cut'] == rest[..n] + rest[n..cut'];
    FilterConcat(Groupable(), rest[..n], rest[n..cut']);
  }

  lemma RepeatedPart(rows: seq<Row>, cut: nat, q: nat)
    requires Descending(rows) && q < cut <= |rows|
    ensures Below(Filter(Groupable(), rows[..cut]), rows[q].id) == Filter(Groupable(), rows[q + 1..][..cut - (q + 1)])
  {
    var p := InCursor(Some(rows[q].id), None);
    var seen, rest := rows[..q + 1], rows[q + 1..][..cut - (q + 1)];
    assert rows[..cut] == seen + rest;
    FilterConcat(Groupable(), seen, rest);
    FilterConcat(p, Filter(Groupable(), seen), Filter(Groupable(), rest));
    FilterMembers(Groupable(), seen);
    FilterMembers(Groupable(), rest);
    FilterNothing(p, Filter(Groupable(), seen));
    FilterEverything(p, Filter(Groupable(), rest));
  }

  lemma NothingBelowIff(listed: seq<Row>, maxId: int)
    requires Descending(listed) && listed != []
    ensures Below(listed, maxId) == [] <==> maxId <= listed[|listed| - 1].id
  {
    FilterMembers(InCursor(Some(maxId), None), listed);
    var last := listed[|listed| - 1];
    if maxId <= last.id {
      FilterNothing(InCursor(Some(maxId), None), listed);
    } else {
      assert last in Below(listed, maxId);
    }
  }

  /** The Link header's cursor repeats nothing exactly when the page's oldest row belongs to the last group. */
  lemma LinkHeaderIsExactIff(listed: seq<Row>, types: set<GroupType>)
    requires Descending(listed) && listed != []
    ensures var order := SeenFrom([], listed, types);
      && order != []
      && (Below(listed, NextMaxId(LastGroup, listed, types)) == []
          <==> KeyFor(listed[|listed| - 1], types) == order[|order| - 1])
  {
    hide KeyFor, PageMinId, SeenFrom, Below;
    var last := listed[|listed| - 1];
    var order := SeenFrom([], listed, types);
    SeenMembers([], listed, types);
    assert KeyFor(last, types) in order;
    var k := order[|order| - 1];
    NothingBelowIff(listed, PageMinId(listed, k, types));
    LastIsItsGroupsMin(listed, types);
    if KeyFor(last, types) != k {
      PageMinIsListed(listed, k, types);
      var r :| r in listed && KeyFor(r, types) == k && r.id == PageMinId(listed, k, types);
      assert r.id > last.id;
    }
  }
}
