/** Status ids: a publication second, a row id and a source packed into one integer; and the direct
    message threads that are ordered by them. */
module StatusIds {
  import opened Base

  const ROWID_BITS := 30
  const SECONDS_BITS := 32
  const MICROS := 1_000_000

  datatype Source = Outbox | Inbox

  function SourceBit(source: Source): nat {
    if source == Outbox then 0 else 1
  }

  // ---------------------------------------------------------------- bitwise operators on naturals

  function ShiftLeft(a: nat, k: nat): nat {
    a * Pow2(k)
  }

  function ShiftRight(a: nat, k: nat): nat {
    if k == 0 then a else ShiftRight(a / 2, k - 1)
  }

  function Or(a: nat, b: nat): nat {
    if a == 0 && b == 0 then 0
    else 2 * Or(a / 2, b / 2) + if a % 2 == 1 || b % 2 == 1 then 1 else 0
  }

  function And(a: nat, b: nat): nat {
    if a == 0 || b == 0 then 0
    else 2 * And(a / 2, b / 2) + if a % 2 == 1 && b % 2 == 1 then 1 else 0
  }

  /** The operators work bit by bit: the larger, or the smaller, of two bits. */
  lemma BitByBit(a: nat, b: nat)
    ensures Or(a, b) == 2 * Or(a / 2, b / 2) + Max(a % 2, b % 2)
    ensures And(a, b) == 2 * And(a / 2, b / 2) + Min(a % 2, b % 2)
  {
  }

  lemma {:induction false} OrZero(a: nat)
    ensures Or(a, 0) == a
  {
    if a > 0 {
      OrZero(a / 2);
    }
  }

  /** Fields that do not overlap are put together as if they were added. */
  lemma {:induction false} OrIsSum(a: nat, b: nat, k: nat)
    requires b < Pow2(k)
    ensures Or(ShiftLeft(a, k), b) == ShiftLeft(a, k) + b
  {
    if k == 0 {
      OrZero(a);
    } else if ShiftLeft(a, k) != 0 || b != 0 {
      assert ShiftLeft(a, k) == 2 * ShiftLeft(a, k - 1);
      OrIsSum(a, b / 2, k - 1);
    }
  }

  /** A mask of k ones takes the low field out. */
  lemma {:induction false} MaskTakesLowField(high: nat, low: nat, k: nat)
    requires low < Pow2(k)
    ensures And(ShiftLeft(high, k) + low, Pow2(k) - 1) == low
  {
    var a, mask := ShiftLeft(high, k) + low, Pow2(k) - 1;
    if k > 0 && a > 0 {
      assert ShiftLeft(high, k) == 2 * ShiftLeft(high, k - 1);
      assert a / 2 == ShiftLeft(high, k - 1) + low / 2 && a % 2 == low % 2;
      assert mask / 2 == Pow2(k - 1) - 1 && mask % 2 == 1;
      MaskTakesLowField(high, low / 2, k - 1);
    }
  }

  lemma {:induction false} Pow2Sum(a: nat, b: nat)
    ensures Pow2(a + b) == Pow2(a) * Pow2(b)
  {
    if a > 0 {
      Pow2Sum(a - 1, b);
    }
  }

  lemma FieldSizes()
    ensures Pow2(ROWID_BITS) == 0x4000_0000 && Pow2(SECONDS_BITS) == 0x1_0000_0000
  {
    assert Pow2(8) == 256;
    Pow2Sum(8, 8);
    Pow2Sum(16, 16);
    Pow2Sum(2, 30);
  }

  // ---------------------------------------------------------------- encoding and decoding

  /** Whole seconds, cut off towards zero. */
  function UnixSeconds(micros: int): int {
    if micros >= 0 then micros / MICROS else -(-micros / MICROS)
  }

  /** None when the row id or the time does not fit. */
  function EncodeObjectId(internalId: int, source: Source, publishedAt: int): Option<nat> {
    var seconds := UnixSeconds(publishedAt);
    if internalId < 0 || internalId > Pow2(ROWID_BITS) - 1 then None
    else if seconds < 0 || seconds > Pow2(SECONDS_BITS) - 1 then None
    else Some(Or(Or(ShiftLeft(seconds, ROWID_BITS + 1), ShiftLeft(internalId, 1)), SourceBit(source)))
  }

  function DecodeObjectId(raw: int): Option<(nat, Source)> {
    if raw < 0 then None
    else Some((And(ShiftRight(raw, 1), Pow2(ROWID_BITS) - 1), if And(raw, 1) == 0 then Outbox else Inbox))
  }

  function DecodeForSource(raw: int, source: Source): Option<nat> {
    match DecodeObjectId(raw)
    case None => None
    case Some(decoded) => if decoded.1 == source then Some(decoded.0) else None
  }

  /** The packed integer as a sum, for a row field of k bits. */
  lemma PackedIsSum(seconds: nat, row: nat, bit: nat, k: nat)
    requires row < Pow2(k) && bit < 2
    ensures Or(Or(ShiftLeft(seconds, k + 1), ShiftLeft(row, 1)), bit) == 2 * (ShiftLeft(seconds, k) + row) + bit
  {
    assert Pow2(1) == 2;
    assert ShiftLeft(seconds, k + 1) == 2 * ShiftLeft(seconds, k);
    OrIsSum(seconds, 2 * row, k + 1);
    OrIsSum(ShiftLeft(seconds, k) + row, bit, 1);
  }

  /** Decoding takes the low fields apart, whatever is above them. */
  lemma DecodedFields(seconds: nat, row: nat, source: Source)
    requires row < Pow2(ROWID_BITS)
    ensures DecodeObjectId(2 * (ShiftLeft(seconds, ROWID_BITS) + row) + SourceBit(source)) == Some((row, source))
  {
    hide Pow2, And, ShiftLeft;
    Fields(ShiftLeft(seconds, ROWID_BITS) + row, SourceBit(source));
    MaskTakesLowField(seconds, row, ROWID_BITS);
  }

  lemma Fields(high: nat, bit: nat)
    requires bit < 2
    ensures ShiftRight(2 * high + bit, 1) == high && And(2 * high + bit, 1) == bit
  {
    assert Pow2(1) == 2 && ShiftLeft(high, 1) == 2 * high;
    MaskTakesLowField(high, bit, 1);
  }

  /** The second of an instant is its whole seconds, cut off towards zero. */
  lemma SecondsAre(micros: int)
    ensures var seconds := UnixSeconds(micros);
      if micros >= 0 then seconds * 1_000_000 <= micros < (seconds + 1) * 1_000_000
      else (seconds - 1) * 1_000_000 < micros <= seconds * 1_000_000
  {
  }

  /** An id exists exactly for a row of 30 bits and a second of 32 bits; it holds the second, then the row, then
      one bit that is set for the inbox. */
  lemma EncodedFields(internalId: int, source: Source, publishedAt: int)
    ensures var seconds := UnixSeconds(publishedAt);
      EncodeObjectId(internalId, source, publishedAt) ==
        if 0 <= internalId < 0x4000_0000 && 0 <= seconds < 0x1_0000_0000
        then Some(seconds * 0x8000_0000 + internalId * 2 + if source == Inbox then 1 else 0)
        else None
  {
    hide Pow2, Or, ShiftLeft;
    var seconds := UnixSeconds(publishedAt);
    FieldSizes();
    if 0 <= internalId < 0x4000_0000 && 0 <= seconds < 0x1_0000_0000 {
      PackedIsSum(seconds, internalId, SourceBit(source), ROWID_BITS);
      SecondsField(seconds);
    }
  }

  lemma SecondsField(seconds: nat)
    ensures 2 * ShiftLeft(seconds, ROWID_BITS) == seconds * 0x8000_0000
  {
    FieldSizes();
  }

  /** Any integer that is not negative decodes: to bits 1 to 30 and to the source of bit 0. */
  lemma DecodedBits(raw: int)
    ensures DecodeObjectId(raw) ==
      if raw < 0 then None else Some((raw / 2 % 0x4000_0000, if raw % 2 == 0 then Outbox else Inbox))
  {
    hide And, ShiftRight;
    FieldSizes();
    if raw >= 0 {
      var high := raw / 2;
      Fields(high, raw % 2);
      SecondsField(high / 0x4000_0000);
      MaskTakesLowField(high / 0x4000_0000, high % 0x4000_0000, ROWID_BITS);
    }
  }

  /** An id decodes to the row and table it was made from, and fits a positive signed 64-bit integer. */
  lemma EncodeThenDecode(internalId: int, source: Source, publishedAt: int)
    requires EncodeObjectId(internalId, source, publishedAt).Some?
    ensures var id := EncodeObjectId(internalId, source, publishedAt).value;
      && id < 0x8000_0000_0000_0000
      && DecodeObjectId(id) == Some((internalId, source))
      && forall other :: DecodeForSource(id, other) == if other == source then Some(internalId) else None
  {
    hide Pow2, And, Or, DecodeObjectId;
    var seconds := UnixSeconds(publishedAt);
    PackedIsSum(seconds, internalId, SourceBit(source), ROWID_BITS);
    DecodedFields(seconds, internalId, source);
    FieldSizes();
  }

  /** An id of the old scheme, twice the row id plus the source, still decodes. */
  lemma OldIdsDecode(internalId: nat, source: Source)
    requires internalId < Pow2(ROWID_BITS)
    ensures DecodeObjectId(internalId * 2 + SourceBit(source)) == Some((internalId, source))
  {
    hide Pow2, And, DecodeObjectId;
    DecodedFields(0, internalId, source);
  }

  /** What ids are compared by: the second, then the row, then the source. */
  predicate Before(s1: int, i1: int, source1: Source, s2: int, i2: int, source2: Source) {
    s1 < s2 || (s1 == s2 && (i1 < i2 || (i1 == i2 && SourceBit(source1) < SourceBit(source2))))
  }

  /** Ids are ordered by publication second, then row id, then source. */
  lemma IdOrderIff(i1: int, source1: Source, t1: int, i2: int, source2: Source, t2: int)
    requires EncodeObjectId(i1, source1, t1).Some? && EncodeObjectId(i2, source2, t2).Some?
    ensures EncodeObjectId(i1, source1, t1).value < EncodeObjectId(i2, source2, t2).value
      <==> Before(UnixSeconds(t1), i1, source1, UnixSeconds(t2), i2, source2)
  {
    hide Pow2, Or;
    PackedIsSum(UnixSeconds(t1), i1, SourceBit(source1), ROWID_BITS);
    PackedIsSum(UnixSeconds(t2), i2, SourceBit(source2), ROWID_BITS);
    FieldSizes();
  }

  /** Different posts never share an id. */
  lemma IdsAreUnique(i1: int, source1: Source, t1: int, i2: int, source2: Source, t2: int)
    requires EncodeObjectId(i1, source1, t1).Some?
    requires EncodeObjectId(i1, source1, t1) == EncodeObjectId(i2, source2, t2)
    ensures i1 == i2 && source1 == source2 && UnixSeconds(t1) == UnixSeconds(t2)
  {
    IdOrderIff(i1, source1, t1, i2, source2, t2);
    IdOrderIff(i2, source2, t2, i1, source1, t1);
  }

  // ---------------------------------------------------------------- direct message threads

  /** The conversation a post is filed under. */
  datatype Context = Context(id: string)

  /** A stored direct post; only one that came in has an actor row. */
  datatype Object = Object(source: Source, row: nat, publishedAt: int, context: Context, actor: nat)

  datatype Thread = Thread(newest: Object, actors: set<nat>, unread: bool)

  /** Its row and time fit an id. */
  predicate Encodable(o: Object) {
    EncodeObjectId(o.row, o.source, o.publishedAt).Some?
  }

  function StatusIdInt(o: Object): nat
    requires Encodable(o)
  {
    EncodeObjectId(o.row, o.source, o.publishedAt).value
  }

  ghost predicate AllEncodable(objects: seq<Object>) {
    forall o <- objects :: Encodable(o)
  }

  /** No two rows of one table are the same row. */
  ghost predicate DistinctRows(objects: seq<Object>) {
    forall i, j :: 0 <= i < j < |objects| ==>
      objects[i].source != objects[j].source || objects[i].row != objects[j].row
  }

  function InContext(context: Context): Object -> bool {
    (o: Object) => o.context == context
  }

  function ActorsOf(objects: seq<Object>): set<nat> {
    set o | o in objects && o.source == Inbox :: o.actor
  }

  /** The object with the largest id. */
  function Newest(objects: seq<Object>): (o: Object)
    requires objects != [] && AllEncodable(objects)
    ensures o in objects && forall other <- objects :: StatusIdInt(other) <= StatusIdInt(o)
  {
    if |objects| == 1 then objects[0] else
      var rest := Newest(objects[1..]);
      if StatusIdInt(objects[0]) >= StatusIdInt(rest) then objects[0] else rest
  }

  function InsertDescending(threads: seq<Thread>, t: Thread): (sorted: seq<Thread>)
    requires AllEncodable([t.newest]) && forall x <- threads :: Encodable(x.newest)
    ensures |sorted| == |threads| + 1 && forall x :: x in sorted <==> x == t || x in threads
  {
    if threads == [] then [t]
    else if StatusIdInt(threads[0].newest) >= StatusIdInt(t.newest) then
      [threads[0]] + InsertDescending(threads[1..], t)
    else [t] + threads
  }

  /** The in-place sort by id, newest first. */
  function SortDescending(threads: seq<Thread>): (sorted: seq<Thread>)
    requires forall x <- threads :: Encodable(x.newest)
    ensures |sorted| == |threads| && forall x :: x in sorted <==> x in threads
  {
    if threads == [] then [] else
      InsertDescending(SortDescending(threads[..|threads| - 1]), threads[|threads| - 1])
  }

  ghost predicate Descending(threads: seq<Thread>)
    requires forall x <- threads :: Encodable(x.newest)
  {
    forall i, j :: 0 <= i < j < |threads| ==> StatusIdInt(threads[i].newest) > StatusIdInt(threads[j].newest)
  }

  lemma {:induction false} InsertKeepsDescending(threads: seq<Thread>, t: Thread)
    requires Encodable(t.newest) && (forall x <- threads :: Encodable(x.newest)) && Descending(threads)
    requires forall x <- threads :: StatusIdInt(x.newest) != StatusIdInt(t.newest)
    ensures Descending(InsertDescending(threads, t))
  {
    hide EncodeObjectId;
    if threads != [] && StatusIdInt(threads[0].newest) >= StatusIdInt(t.newest) {
      InsertKeepsDescending(threads[1..], t);
      assert forall x <- threads[1..] :: StatusIdInt(x.newest) < StatusIdInt(threads[0].newest);
      var rest := InsertDescending(threads[1..], t);
      assert forall j :: 0 <= j < |rest| ==> rest[j] in rest;
    }
  }

  ghost predicate DistinctIds(threads: seq<Thread>)
    requires forall x <- threads :: Encodable(x.newest)
  {
    forall i, j :: 0 <= i < j < |threads| ==> StatusIdInt(threads[i].newest) != StatusIdInt(threads[j].newest)
  }

  lemma {:induction false} SortIsDescending(threads: seq<Thread>)
    requires (forall x <- threads :: Encodable(x.newest)) && DistinctIds(threads)
    ensures Descending(SortDescending(threads))
  {
    hide EncodeObjectId;
    if threads != [] {
      var n := |threads| - 1;
      SortIsDescending(threads[..n]);
      InsertKeepsDescending(SortDescending(threads[..n]), threads[n]);
    }
  }

  ghost predicate IsThreadOf(t: Thread, objects: seq<Object>, unread: set<Context>) {
    && t.newest in objects
    && (forall o <- objects | o.context == t.newest.context ::
          Encodable(o) && Encodable(t.newest) && StatusIdInt(o) <= StatusIdInt(t.newest))
    && t.actors == (set o | o in objects && o.context == t.newest.context && o.source == Inbox :: o.actor)
    && t.unread == (t.newest.context in unread)
  }

  /** The dictionary of the loop: its keys in insertion order, and the objects under each. */
  ghost predicate Grouped(order: seq<Context>, byContext: map<Context, seq<Object>>, objects: seq<Object>) {
    && Distinct(order) && (forall c :: c in order <==> c in byContext)
    && (forall c :: (if c in byContext then byContext[c] else []) == Filter(InContext(c), objects))
    && (forall c <- byContext :: byContext[c] != [])
  }

  function Appended(byContext: map<Context, seq<Object>>, o: Object): map<Context, seq<Object>> {
    byContext[o.context := (if o.context in byContext then byContext[o.context] else []) + [o]]
  }

  lemma GroupStep(order: seq<Context>, byContext: map<Context, seq<Object>>, objects: seq<Object>, o: Object)
    requires Grouped(order, byContext, objects)
    ensures Grouped(if o.context in order then order else order + [o.context], Appended(byContext, o), objects + [o])
  {
    hide Filter;
    var after := Appended(byContext, o);
    forall c
      ensures (if c in after then after[c] else []) == Filter(InContext(c), objects + [o])
    {
      FilterSnoc(InContext(c), objects, o);
    }
  }

  lemma NothingGrouped()
    ensures Grouped([], map[], [])
  {
  }

  method GroupByContext(objects: seq<Object>) returns (order: seq<Context>, byContext: map<Context, seq<Object>>)
    ensures Grouped(order, byContext, objects)
  {
    hide Grouped;
    order, byContext := [], map[];
    NothingGrouped();
    for n := 0 to |objects|
      invariant Grouped(order, byContext, objects[..n])
    {
      var o := objects[n];
      assert objects[..n + 1] == objects[..n] + [o];
      GroupStep(order, byContext, objects[..n], o);
      if o.context !in order {
        order := order + [o.context];
      }
      byContext := Appended(byContext, o);
    }
    assert objects[..|objects|] == objects;
  }

  /** The thread of one context of the dictionary. */
  lemma NewestOfContext(order: seq<Context>, byContext: map<Context, seq<Object>>, objects: seq<Object>,
      unread: set<Context>, c: Context)
    requires Grouped(order, byContext, objects) && c in order
    requires forall o <- byContext[c] :: Encodable(o)
    ensures c in byContext && byContext[c] != [] && AllEncodable(byContext[c])
    ensures var t := Thread(Newest(byContext[c]), ActorsOf(byContext[c]), c in unread);
      t.newest.context == c && Encodable(t.newest) && IsThreadOf(t, objects, unread)
  {
    hide EncodeObjectId;
    FilterMembers(InContext(c), objects);
  }

  ghost predicate OneThreadEach(threads: seq<Thread>, objects: seq<Object>, unread: set<Context>) {
    && (forall t <- threads :: Encodable(t.newest) && IsThreadOf(t, objects, unread))
    && (forall o <- objects :: exists t :: t in threads && t.newest.context == o.context)
  }

  lemma ThreadsCover(order: seq<Context>, byContext: map<Context, seq<Object>>, threads: seq<Thread>,
      objects: seq<Object>)
    requires Grouped(order, byContext, objects) && |threads| == |order|
    requires forall i :: 0 <= i < |order| ==> threads[i].newest.context == order[i]
    ensures forall o <- objects :: exists t :: t in threads && t.newest.context == o.context
  {
    forall o | o in objects
      ensures exists t :: t in threads && t.newest.context == o.context
    {
      FilterMembers(InContext(o.context), objects);
      assert o in Filter(InContext(o.context), objects);
      var i :| 0 <= i < |order| && order[i] == o.context;
      assert threads[i] in threads;
    }
  }

  lemma ContextEncodable(byContext: map<Context, seq<Object>>, order: seq<Context>, objects: seq<Object>)
    requires Grouped(order, byContext, objects)
    ensures AllEncodable(objects) <==> forall c <- byContext :: AllEncodable(byContext[c])
  {
    hide EncodeObjectId;
    if AllEncodable(objects) {
      forall c | c in byContext
        ensures AllEncodable(byContext[c])
      {
        FilterMembers(InContext(c), objects);
      }
    } else {
      var o :| o in objects && !Encodable(o);
      FilterMembers(InContext(o.context), objects);
      assert o in Filter(InContext(o.context), objects);
    }
  }

  /** Direct posts grouped by context, each thread shown by its newest post, newest thread first: exactly
      one thread for each context, in strictly descending id order. Raises when some post has no id. */
  method DmThreads(objects: seq<Object>, unread: set<Context>) returns (raised: bool, threads: seq<Thread>)
    requires DistinctRows(objects)
    ensures raised <==> !AllEncodable(objects)
    ensures !raised ==> OneThreadEach(threads, objects, unread) && Descending(threads)
    ensures forall i, j :: 0 <= i < j < |threads| ==> threads[i].newest.context != threads[j].newest.context
  {
    hide EncodeObjectId, AllEncodable, DistinctRows, IsThreadOf, Grouped;
    var order, byContext := GroupByContext(objects);
    ContextEncodable(byContext, order, objects);
    GroupsDiffer(order, byContext, objects);
    raised, threads := false, [];
    for n := 0 to |order|
      invariant |threads| == n
      invariant forall i :: 0 <= i < n ==> threads[i].newest.context == order[i] && AllEncodable(byContext[order[i]])
      invariant forall t <- threads :: Encodable(t.newest) && IsThreadOf(t, objects, unread)
    {
      var context := order[n];
      if o :| o in byContext[context] && !Encodable(o) {
        NotAllEncodable(byContext[context], o);
        return true, [];
      }
      NewestOfContext(order, byContext, objects, unread, context);
      var newest := Newest(byContext[context]);
      threads := threads + [Thread(newest, ActorsOf(byContext[context]), context in unread)];
    }
    assert AllEncodable(objects) by {
      forall c | c in byContext
        ensures AllEncodable(byContext[c])
      {
        var i :| 0 <= i < |order| && order[i] == c;
      }
    }
    ThreadsCover(order, byContext, threads, objects);
    ThreadsDiffer(threads, objects, unread);
    SortIsDescending(threads);
    threads := SortDescending(threads);
    ContextsDiffer(threads, objects, unread);
  }

  lemma NotAllEncodable(objects: seq<Object>, o: Object)
    requires o in objects && !Encodable(o)
    ensures !AllEncodable(objects)
  {
  }

  lemma GroupsDiffer(order: seq<Context>, byContext: map<Context, seq<Object>>, objects: seq<Object>)
    requires Grouped(order, byContext, objects)
    ensures Distinct(order) && forall c :: c in order <==> c in byContext
  {
  }

  /** Two threads of one context would both be shown by its newest post. */
  lemma ContextsDiffer(threads: seq<Thread>, objects: seq<Object>, unread: set<Context>)
    requires forall t <- threads :: Encodable(t.newest) && IsThreadOf(t, objects, unread)
    requires Descending(threads)
    ensures forall i, j :: 0 <= i < j < |threads| ==> threads[i].newest.context != threads[j].newest.context
  {
    hide EncodeObjectId;
    forall i, j | 0 <= i < j < |threads|
      ensures threads[i].newest.context != threads[j].newest.context
    {
      assert IsThreadOf(threads[i], objects, unread) && IsThreadOf(threads[j], objects, unread);
      assert StatusIdInt(threads[i].newest) > StatusIdInt(threads[j].newest);
    }
  }

  lemma ThreadsDiffer(threads: seq<Thread>, objects: seq<Object>, unread: set<Context>)
    requires AllEncodable(objects) && DistinctRows(objects)
    requires forall t <- threads :: Encodable(t.newest) && IsThreadOf(t, objects, unread)
    requires forall i, j :: 0 <= i < j < |threads| ==> threads[i].newest.context != threads[j].newest.context
    ensures DistinctIds(threads)
  {
    hide EncodeObjectId;
    forall i, j | 0 <= i < j < |threads|
      ensures StatusIdInt(threads[i].newest) != StatusIdInt(threads[j].newest)
    {
      var a, b := threads[i].newest, threads[j].newest;
      assert IsThreadOf(threads[i], objects, unread) && IsThreadOf(threads[j], objects, unread);
      if StatusIdInt(a) == StatusIdInt(b) {
        IdsAreUnique(a.row, a.source, a.publishedAt, b.row, b.source, b.publishedAt);
      }
    }
  }
}
