/** The tally of our polls: votes arrive as answers, and the question republishes its totals. */
module PollTally {
  import opened Base

  datatype PollType = OneOf | AnyOf

  /** A published option. */
  datatype Item = Item(name: string, total: nat)

  datatype Question = Question(kind: PollType, items: seq<Item>, votersCount: nat, endTime: Option<int>)

  /** A stored answer to the question of that id; `kind` is the question's when it was given. */
  datatype Answer = Answer(question: nat, kind: PollType, actor: nat, name: string)

  datatype Db = Db(questions: map<nat, Question>, answers: seq<Answer>)

  function To(question: nat): Answer -> bool {
    (a: Answer) => a.question == question
  }

  function Named(name: string): Answer -> bool {
    (a: Answer) => a.name == name
  }

  function AnswersTo(db: Db, question: nat): seq<Answer> {
    Filter(To(question), db.answers)
  }

  function Voters(answers: seq<Answer>): set<nat> {
    set a | a in answers :: a.actor
  }

  /** The table's two uniqueness constraints. */
  predicate Conflicts(a: Answer, b: Answer) {
    && a.question == b.question && a.actor == b.actor
    && (a.name == b.name || (a.kind == OneOf && b.kind == OneOf))
  }

  predicate HasOption(q: Question, name: string) {
    exists i :: 0 <= i < |q.items| && q.items[i].name == name
  }

  predicate IsEnded(q: Question, now: int) {
    q.endTime.Some? && now > q.endTime.value
  }

  /** The question with its counts taken from the stored answers. */
  function Recounted(q: Question, answers: seq<Answer>): Question {
    q.(votersCount := |Voters(answers)|,
       items := seq(|q.items|, i requires 0 <= i < |q.items| =>
         Item(q.items[i].name, |Filter(Named(q.items[i].name), answers)|)))
  }

  datatype Outcome = Discarded | Counted | Conflict | NoOptions | UnknownQuestion

  function Verdict(db: Db, now: int, question: nat, actor: nat, name: string): Outcome {
    if question !in db.questions then UnknownQuestion
    else if IsEnded(db.questions[question], now) then Discarded
    else if db.questions[question].items == [] then NoOptions
    else if !HasOption(db.questions[question], name) then Discarded
    else if exists a :: a in db.answers && Conflicts(a, Answer(question, db.questions[question].kind, actor, name)) then
      Conflict
    else Counted
  }

  /** A vote that breaks a constraint, or that finds no options, raises: its transaction is rolled back. */
  function Voted(db: Db, now: int, question: nat, actor: nat, name: string): Db {
    if Verdict(db, now, question, actor, name) != Counted then db else
      var q := db.questions[question];
      var stored := db.(answers := db.answers + [Answer(question, q.kind, actor, name)]);
      stored.(questions := db.questions[question := Recounted(q, AnswersTo(stored, question))])
  }

  /** The tables, changed in place. */
  class Polls {
    var questions: map<nat, Question>
    var answers: seq<Answer>

    function View(): Db
      reads this
    {
      Db(questions, answers)
    }

    method HandleVoteAnswer(now: int, question: nat, actor: nat, name: string) returns (outcome: Outcome)
      modifies this
      ensures outcome == Verdict(old(View()), now, question, actor, name)
      ensures View() == Voted(old(View()), now, question, actor, name)
    {
      if question !in questions {
        return UnknownQuestion;
      }
      var q := questions[question];
      if IsEnded(q, now) {
        return Discarded;
      }
      if q.items == [] {
        return NoOptions;
      }
      if !HasOption(q, name) {
        return Discarded;
      }
      var answer := Answer(question, q.kind, actor, name);
      if exists a :: a in answers && Conflicts(a, answer) {
        return Conflict;
      }
      answers := answers + [answer];
      var given := AnswersTo(View(), question);
      var items: seq<Item> := [];
      for n := 0 to |q.items|
        invariant items == Recounted(q, given).items[..n]
      {
        items := items + [Item(q.items[n].name, |Filter(Named(q.items[n].name), given)|)];
      }
      assert items == Recounted(q, given).items;
      questions := questions[question := q.(items := items, votersCount := |Voters(given)|)];
      return Counted;
    }
  }

  // ---------------------------------------------------------------- runs

  datatype Event =
    | Ask(question: nat, kind: PollType, names: seq<string>, endTime: Option<int>)
    | Vote(now: int, question: nat, actor: nat, name: string)
    | Edit(question: nat)

  /** What the object of an edited question still says of its poll: the rebuilt note has none of the poll's
      fields, so it reads as a multiple-choice poll without options, end or voters. */
  const BLANK := Question(AnyOf, [], 0, None)

  /** A new question starts at zero, under an id no question or answer has used. */
  function Apply(db: Db, e: Event): Db {
    match e
    case Vote(now, question, actor, name) => Voted(db, now, question, actor, name)
    case Ask(question, kind, names, endTime) =>
      if question in db.questions then db else
        var items := seq(|names|, i requires 0 <= i < |names| => Item(names[i], 0));
        db.(questions := db.questions[question := Question(kind, items, 0, endTime)])
    case Edit(question) =>
      if question in db.questions then db.(questions := db.questions[question := BLANK]) else db
  }

  function After(history: seq<Event>): Db {
    if history == [] then Db(map[], []) else
      Apply(After(history[..|history| - 1]), history[|history| - 1])
  }

  /** A history goes on event by event. */
  lemma OneMoreEvent(history: seq<Event>, e: Event)
    ensures After([]) == Db(map[], [])
    ensures After(history + [e]) == Apply(After(history), e)
  {
    assert (history + [e])[..|history|] == history;
  }

  function EditedBy(db: Db, e: Event): set<nat> {
    if e.Edit? && e.question in db.questions then {e.question} else {}
  }

  /** The questions that were edited after they were asked. */
  function Edited(history: seq<Event>): set<nat> {
    if history == [] then {} else
      var n := |history| - 1;
      Edited(history[..n]) + EditedBy(After(history[..n]), history[n])
  }

  /** The answers keep the constraints; those to a question that was not edited answer its options, and it
      publishes its tally; an edited one publishes nothing. */
  ghost predicate Inv(db: Db, edited: set<nat>) {
    && (forall i, j :: 0 <= i < j < |db.answers| ==> !Conflicts(db.answers[i], db.answers[j]))
    && (forall a <- db.answers :: a.question in db.questions)
    && (forall a <- db.answers :: a.question !in edited ==>
          && a.kind == db.questions[a.question].kind
          && HasOption(db.questions[a.question], a.name))
    && (forall id <- db.questions :: id !in edited ==>
          db.questions[id] == Recounted(db.questions[id], AnswersTo(db, id)))
    && (forall id <- edited :: id in db.questions && db.questions[id] == BLANK)
  }

  lemma RecountKeepsOptions(q: Question, answers: seq<Answer>, name: string)
    ensures HasOption(Recounted(q, answers), name) <==> HasOption(q, name)
  {
    var after := Recounted(q, answers);
    if i :| 0 <= i < |q.items| && q.items[i].name == name {
      assert after.items[i].name == name;
    }
    if i :| 0 <= i < |after.items| && after.items[i].name == name {
      assert q.items[i].name == name;
    }
  }

  lemma RecountTwice(q: Question, first: seq<Answer>, answers: seq<Answer>)
    ensures Recounted(Recounted(q, first), answers) == Recounted(q, answers)
  {
  }

  lemma VoteKeepsInv(db: Db, edited: set<nat>, now: int, question: nat, actor: nat, name: string)
    requires Inv(db, edited)
    ensures Inv(Voted(db, now, question, actor, name), edited)
  {
    var after := Voted(db, now, question, actor, name);
    if Verdict(db, now, question, actor, name) == Counted {
      var q := db.questions[question];
      assert question !in edited;
      var answer := Answer(question, q.kind, actor, name);
      forall a | a in after.answers && a.question !in edited
        ensures a.question in after.questions && a.kind == after.questions[a.question].kind
        ensures HasOption(after.questions[a.question], a.name)
      {
        RecountKeepsOptions(q, AnswersTo(after, question), a.name);
      }
      forall id | id in after.questions && id !in edited
        ensures after.questions[id] == Recounted(after.questions[id], AnswersTo(after, id))
      {
        FilterSnoc(To(id), db.answers, answer);
        RecountTwice(q, AnswersTo(after, question), AnswersTo(after, question));
      }
    }
  }

  lemma AskKeepsInv(db: Db, edited: set<nat>, question: nat, kind: PollType, names: seq<string>, endTime: Option<int>)
    requires Inv(db, edited)
    ensures Inv(Apply(db, Ask(question, kind, names, endTime)), edited)
  {
    var after := Apply(db, Ask(question, kind, names, endTime));
    if question !in db.questions {
      FilterNothing(To(question), db.answers);
      assert after.questions[question] == Recounted(after.questions[question], []);
    }
  }

  lemma StepKeepsInv(db: Db, edited: set<nat>, e: Event)
    requires Inv(db, edited)
    ensures Inv(Apply(db, e), edited + EditedBy(db, e))
  {
    assert !e.Edit? ==> edited + EditedBy(db, e) == edited;
    match e
    case Vote(now, question, actor, name) => VoteKeepsInv(db, edited, now, question, actor, name);
    case Ask(question, kind, names, endTime) => AskKeepsInv(db, edited, question, kind, names, endTime);
    case Edit(_) =>
  }

  /** In every run no two answers break a constraint, and every question that was not edited publishes its
      tally. */
  lemma {:induction false} InvHolds(history: seq<Event>)
    ensures Inv(After(history), Edited(history))
  {
    if history != [] {
      hide Inv, Apply, EditedBy;
      var n := |history| - 1;
      InvHolds(history[..n]);
      StepKeepsInv(After(history[..n]), Edited(history[..n]), history[n]);
    }
  }

  /** A question publishes its tally exactly when it was never edited or nobody has answered it: editing its
      text drops the options and the end of the poll and keeps the answers. */
  lemma PublishesItsTallyIff(history: seq<Event>, id: nat)
    requires id in After(history).questions
    ensures var q, answers := After(history).questions[id], AnswersTo(After(history), id);
      q == Recounted(q, answers) <==> id !in Edited(history) || answers == []
  {
    var q, answers := After(history).questions[id], AnswersTo(After(history), id);
    InvHolds(history);
    if answers != [] {
      assert answers[0].actor in Voters(answers);
    } else {
      assert Voters(answers) == {};
    }
  }

  /** An edited question takes no votes any more, whatever its end was: each one raises, and neither the
      question nor its answers change again. */
  lemma {:induction false} EditedPollIsClosed(history: seq<Event>, m: nat, id: nat)
    requires m <= |history| && id in Edited(history[..m])
    ensures var before, after := After(history[..m]), After(history);
      && id in before.questions && id in after.questions && after.questions[id] == before.questions[id] == BLANK
      && AnswersTo(after, id) == AnswersTo(before, id)
      && forall now, actor, name :: Verdict(after, now, id, actor, name) == NoOptions
  {
    hide Voters, HasOption, Recounted, Apply;
    InvHolds(history[..m]);
    if m == |history| {
      assert history[..m] == history;
    } else {
      var n := |history| - 1;
      assert history[..n][..m] == history[..m];
      EditedPollIsClosed(history[..n], m, id);
      StepOnBlank(After(history[..n]), history[n], id);
    }
  }

  lemma StepOnBlank(db: Db, e: Event, id: nat)
    requires id in db.questions && db.questions[id] == BLANK
    ensures id in Apply(db, e).questions && Apply(db, e).questions[id] == BLANK
    ensures AnswersTo(Apply(db, e), id) == AnswersTo(db, id)
  {
    if e != Edit(id) {
      StepElsewhere(db, e, id);
    }
  }

  /** What becomes of a vote: nothing for a question we do not know; discarded after the end or for a name that is
      no option; refused where there are no options; a conflict when the actor has given this answer, or any one
      in a single-choice poll; else counted. */
  lemma VerdictIff(db: Db, now: int, question: nat, actor: nat, name: string)
    ensures var v := Verdict(db, now, question, actor, name);
      && (v == UnknownQuestion <==> question !in db.questions)
      && (question in db.questions ==>
            var q := db.questions[question];
            var over := q.endTime.Some? && q.endTime.value < now;
            var named := exists i :: 0 <= i < |q.items| && q.items[i].name == name;
            var given := exists a <- db.answers ::
              && a.question == question && a.actor == actor
              && (a.name == name || (a.kind == OneOf && q.kind == OneOf));
            && (v == Discarded <==> over || (|q.items| > 0 && !named))
            && (v == NoOptions <==> !over && |q.items| == 0)
            && (v == Conflict <==> !over && named && given)
            && (v == Counted <==> !over && named && !given))
  {
  }

  function Gives(question: nat, name: string): Answer -> bool {
    (a: Answer) => a.question == question && a.name == name
  }

  lemma {:induction false} GivenAnswers(question: nat, name: string, answers: seq<Answer>)
    ensures Filter(Named(name), Filter(To(question), answers)) == Filter(Gives(question, name), answers)
  {
    if answers != [] {
      GivenAnswers(question, name, answers[1..]);
    }
  }

  /** A counted vote stores its answer and sets each total of its question to the number of answers stored for
      that option, and the voters to the number of actors who answered it; no other vote writes anything. */
  lemma VoteWrites(db: Db, now: int, question: nat, actor: nat, name: string)
    ensures var after := Voted(db, now, question, actor, name);
      && (Verdict(db, now, question, actor, name) != Counted ==> after == db)
      && (Verdict(db, now, question, actor, name) == Counted ==>
            var q := db.questions[question];
            var q' := after.questions[question];
            && after.answers == db.answers + [Answer(question, q.kind, actor, name)]
            && after.questions == db.questions[question := q']
            && q'.kind == q.kind && q'.endTime == q.endTime && |q'.items| == |q.items|
            && q'.votersCount == |set a | a in after.answers && a.question == question :: a.actor|
            && forall i :: 0 <= i < |q.items| ==>
                 q'.items[i] == Item(q.items[i].name, |Filter(Gives(question, q.items[i].name), after.answers)|))
    ensures Apply(db, Vote(now, question, actor, name)) == Voted(db, now, question, actor, name)
  {
    if Verdict(db, now, question, actor, name) == Counted {
      var after, q := Voted(db, now, question, actor, name), db.questions[question];
      var given := AnswersTo(after, question);
      FilterMembers(To(question), after.answers);
      assert Voters(given) == set a | a in after.answers && a.question == question :: a.actor;
      forall i | 0 <= i < |q.items|
        ensures after.questions[question].items[i]
          == Item(q.items[i].name, |Filter(Gives(question, q.items[i].name), after.answers)|)
      {
        GivenAnswers(question, q.items[i].name, after.answers);
      }
    }
  }

  /** A question is asked once, with its options in order and nothing counted; an edit leaves an empty
      multiple-choice poll without end; neither touches another question or an answer. */
  lemma AskAndEditWrite(db: Db, id: nat, kind: PollType, names: seq<string>, endTime: Option<int>)
    ensures var asked, edited := Apply(db, Ask(id, kind, names, endTime)), Apply(db, Edit(id));
      && asked.answers == edited.answers == db.answers
      && (id in db.questions ==> asked == db && edited.questions == db.questions[id := Question(AnyOf, [], 0, None)])
      && (id !in db.questions ==>
            && edited == db
            && id in asked.questions && asked.questions == db.questions[id := asked.questions[id]]
            && var q := asked.questions[id];
            && q.kind == kind && q.endTime == endTime && q.votersCount == 0 && |q.items| == |names|
            && forall i :: 0 <= i < |names| ==> q.items[i] == Item(names[i], 0))
  {
  }

  /** After a counted vote the actor's next vote conflicts: any in a single-choice poll, the same option
      in a multiple-choice one. */
  lemma SecondVoteConflicts(db: Db, first: int, second: int, question: nat, actor: nat, name: string, other: string)
    requires Verdict(db, first, question, actor, name) == Counted
    requires db.questions[question].kind == OneOf || other == name
    requires HasOption(db.questions[question], other) && !IsEnded(db.questions[question], second)
    ensures var after := Voted(db, first, question, actor, name);
      && Verdict(after, second, question, actor, other) == Conflict
      && Voted(after, second, question, actor, other) == after
  {
    var after := Voted(db, first, question, actor, name);
    var q := db.questions[question];
    RecountKeepsOptions(q, AnswersTo(after, question), other);
    var given := Answer(question, q.kind, actor, name);
    assert given in after.answers && Conflicts(given, Answer(question, q.kind, actor, other));
  }

  /** Votes that come after the end change neither the stored answers nor the published tally. */
  lemma {:induction false} EndedPollIsFrozen(history: seq<Event>, m: nat, id: nat)
    requires m <= |history| && id in After(history[..m]).questions
    requires forall n :: m <= n < |history| && history[n].Vote? && history[n].question == id ==>
      IsEnded(After(history[..m]).questions[id], history[n].now)
    requires forall n :: m <= n < |history| ==> history[n] != Edit(id)
    ensures var before, after := After(history[..m]), After(history);
      && id in after.questions && after.questions[id] == before.questions[id]
      && AnswersTo(after, id) == AnswersTo(before, id)
  {
    if m == |history| {
      assert history[..m] == history;
    } else {
      var n := |history| - 1;
      assert history[..n][..m] == history[..m];
      EndedPollIsFrozen(history[..n], m, id);
      StepElsewhere(After(history[..n]), history[n], id);
    }
  }

  /** A step that is not an edit of the question, nor a vote that could still count for it. */
  lemma StepElsewhere(db: Db, e: Event, id: nat)
    requires id in db.questions && e != Edit(id)
    requires e.Vote? && e.question == id ==> IsEnded(db.questions[id], e.now) || db.questions[id].items == []
    ensures id in Apply(db, e).questions && Apply(db, e).questions[id] == db.questions[id]
    ensures AnswersTo(Apply(db, e), id) == AnswersTo(db, id)
  {
    if e.Vote? && Verdict(db, e.now, e.question, e.actor, e.name) == Counted {
      FilterSnoc(To(id), db.answers, Answer(e.question, db.questions[e.question].kind, e.actor, e.name));
    }
  }

  // ---------------------------------------------------------------- conservation

  function TotalOf(): Item -> int {
    (item: Item) => item.total
  }

  function TimesNamed(items: seq<Item>): Answer -> int {
    (a: Answer) => |Filter(WithName(a.name), items)|
  }

  function WithName(name: string): Item -> bool {
    (item: Item) => item.name == name
  }

  ghost predicate CountsNames(items: seq<Item>, answers: seq<Answer>) {
    forall item <- items :: item.total == |Filter(Named(item.name), answers)|
  }

  lemma {:induction false} AddName(item: Item, items: seq<Item>, answers: seq<Answer>)
    ensures Sum(TimesNamed([item] + items), answers)
      == |Filter(Named(item.name), answers)| + Sum(TimesNamed(items), answers)
  {
    if answers != [] {
      AddName(item, items, answers[1..]);
      FilterConcat(WithName(answers[0].name), [item], items);
    }
  }

  /** Summing the totals counts every answer once for each option that carries its name. */
  lemma {:induction false} TotalsCountAnswers(items: seq<Item>, answers: seq<Answer>)
    requires CountsNames(items, answers)
    ensures Sum(TotalOf(), items) == Sum(TimesNamed(items), answers)
  {
    if items == [] {
      SumZero(TimesNamed(items), answers);
    } else {
      assert items == [items[0]] + items[1..];
      TotalsCountAnswers(items[1..], answers);
      AddName(items[0], items[1..], answers);
    }
  }

  /** With every weight at least one, the sum reaches the length exactly when all of them are one. */
  lemma {:induction false} SumOfOnesIff(f: Answer -> int, answers: seq<Answer>)
    requires forall a <- answers :: f(a) >= 1
    ensures Sum(f, answers) >= |answers|
    ensures Sum(f, answers) == |answers| <==> forall a <- answers :: f(a) == 1
  {
    if answers != [] {
      SumOfOnesIff(f, answers[1..]);
      assert forall a :: a in answers <==> a == answers[0] || a in answers[1..];
    }
  }

  ghost predicate OncePerActor(answers: seq<Answer>) {
    forall i, j :: 0 <= i < j < |answers| ==> answers[i].actor != answers[j].actor
  }

  lemma {:induction false} DistinctActors(answers: seq<Answer>)
    ensures |Voters(answers)| <= |answers|
    ensures OncePerActor(answers) ==> |Voters(answers)| == |answers|
  {
    if answers != [] {
      var n := |answers| - 1;
      DistinctActors(answers[..n]);
      assert answers == answers[..n] + [answers[n]];
      assert Voters(answers) == Voters(answers[..n]) + {answers[n].actor};
      if OncePerActor(answers) {
        assert answers[n].actor !in Voters(answers[..n]);
      }
    }
  }

  lemma {:induction false} SubsetSize(a: set<nat>, b: set<nat>)
    requires a <= b
    ensures |a| <= |b|
  {
    if a != {} {
      var x :| x in a;
      SubsetSize(a - {x}, b - {x});
    }
  }

  /** Answers of one name come from different actors, or the constraint would be broken. */
  lemma TotalWithinVoters(answers: seq<Answer>, name: string)
    requires forall i, j :: 0 <= i < j < |answers| ==> !Conflicts(answers[i], answers[j])
    requires forall a, b :: a in answers && b in answers ==> a.question == b.question
    ensures |Filter(Named(name), answers)| <= |Voters(answers)|
  {
    var same := Filter(Named(name), answers);
    FilterMembers(Named(name), answers);
    FilterApart(Named(name), answers);
    assert forall i :: 0 <= i < |same| ==> same[i] in same;
    assert OncePerActor(same);
    DistinctActors(same);
    SubsetSize(Voters(same), Voters(answers));
  }

  lemma {:induction false} FilterApart(p: Answer -> bool, answers: seq<Answer>)
    requires forall i, j :: 0 <= i < j < |answers| ==> !Conflicts(answers[i], answers[j])
    ensures var kept := Filter(p, answers);
      forall i, j :: 0 <= i < j < |kept| ==> !Conflicts(kept[i], kept[j])
  {
    if answers != [] {
      FilterApart(p, answers[1..]);
      FilterMembers(p, answers[1..]);
      forall a | a in answers[1..]
        ensures !Conflicts(answers[0], a)
      {
        var j :| 0 <= j < |answers| - 1 && answers[1..][j] == a;
        assert answers[j + 1] == a;
      }
    }
  }

  lemma {:induction false} SumAtMost(items: seq<Item>, bound: nat)
    requires forall item <- items :: item.total <= bound
    ensures Sum(TotalOf(), items) <= bound * |items|
  {
    if items != [] {
      SumAtMost(items[1..], bound);
    }
  }

  /** An option that answers name more than once. */
  ghost predicate IsRepeated(q: Question, name: string) {
    |Filter(WithName(name), q.items)| > 1
  }

  /** What a question of a run publishes until it is edited: every total is the number of stored answers with
      that name and is at most the number of voters. */
  lemma TotalsAreStoredAnswers(history: seq<Event>, id: nat)
    requires id in After(history).questions && id !in Edited(history)
    ensures var db := After(history);
      var q, answers := db.questions[id], AnswersTo(db, id);
      && q.votersCount == |Voters(answers)|
      && forall item <- q.items :: item.total == |Filter(Named(item.name), answers)| <= q.votersCount
  {
    var db := After(history);
    var q, answers := db.questions[id], AnswersTo(db, id);
    InvHolds(history);
    FilterMembers(To(id), db.answers);
    FilterApart(To(id), db.answers);
    forall item | item in q.items
      ensures item.total == |Filter(Named(item.name), answers)| <= q.votersCount
    {
      TotalWithinVoters(answers, item.name);
    }
  }

  lemma CarriesAnOption(q: Question, a: Answer)
    requires HasOption(q, a.name)
    ensures TimesNamed(q.items)(a) >= 1
  {
    var i :| 0 <= i < |q.items| && q.items[i].name == a.name;
    FilterMembers(WithName(a.name), q.items);
    assert q.items[i] in Filter(WithName(a.name), q.items);
  }

  lemma AnswersNameOptions(history: seq<Event>, id: nat)
    requires id in After(history).questions && id !in Edited(history)
    ensures var db := After(history);
      forall a <- AnswersTo(db, id) :: a.question == id && TimesNamed(db.questions[id].items)(a) >= 1
  {
    hide After, Edited, HasOption, Filter, TimesNamed, Recounted;
    var db := After(history);
    InvHolds(history);
    FilterMembers(To(id), db.answers);
    forall a | a in AnswersTo(db, id)
      ensures a.question == id && TimesNamed(db.questions[id].items)(a) >= 1
    {
      CarriesAnOption(db.questions[id], a);
    }
  }

  /** In every run, the totals of a single-choice poll add up to its voters exactly when nobody chose
      an option whose name is repeated. (An edited question is no single-choice poll any more.) */
  lemma SingleChoiceConserves(history: seq<Event>, id: nat)
    requires id in After(history).questions && After(history).questions[id].kind == OneOf
    ensures var db := After(history);
      var q := db.questions[id];
      && q.votersCount == |AnswersTo(db, id)|
      && (Sum(TotalOf(), q.items) == q.votersCount
          <==> forall a <- AnswersTo(db, id) :: !IsRepeated(q, a.name))
  {
    var db := After(history);
    var q, answers := db.questions[id], AnswersTo(db, id);
    InvHolds(history);
    FilterMembers(To(id), db.answers);
    FilterApart(To(id), db.answers);
    assert forall i :: 0 <= i < |answers| ==> answers[i] in answers;
    assert OncePerActor(answers);
    DistinctActors(answers);
    TotalsAreStoredAnswers(history, id);
    TotalsCountAnswers(q.items, answers);
    AnswersNameOptions(history, id);
    SumOfOnesIff(TimesNamed(q.items), answers);
  }

  /** In every run, the totals of a multiple-choice poll add up to between once and as many times the
      voters as there are options. */
  lemma MultipleChoiceBounds(history: seq<Event>, id: nat)
    requires id in After(history).questions && id !in Edited(history)
    ensures var q := After(history).questions[id];
      q.votersCount <= Sum(TotalOf(), q.items) <= q.votersCount * |q.items|
  {
    var db := After(history);
    var q, answers := db.questions[id], AnswersTo(db, id);
    DistinctActors(answers);
    TotalsAreStoredAnswers(history, id);
    TotalsCountAnswers(q.items, answers);
    AnswersNameOptions(history, id);
    SumOfOnesIff(TimesNamed(q.items), answers);
    SumAtMost(q.items, q.votersCount);
  }
}
