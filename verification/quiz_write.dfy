/** The three write handlers of the quiz router: `POST /`, `PUT /:id` and
    `DELETE /:id`. A BEGIN..COMMIT block is a run of statements over a
    transaction-local copy of the database; if any statement raises, the
    handler issues ROLLBACK and the database keeps the state it had before
    BEGIN. Which statement raises (a lost connection, a constraint
    violation) is outside the program, so it is a parameter: `failAt` is
    the index, counted from the first statement after BEGIN, of the
    statement that raises, or `None` when none does. */
module QuizWrite {
  import opened Base
  import opened QuizSchema
  import opened Store
  import opened QuizRead

  /** A transaction in progress: the database as the transaction sees it,
      and the index of the next statement. */
  datatype Tx = Tx(db: Db, step: nat)

  /** The statement raising lies in the window of `count` statements
      starting at index `lo`. */
  predicate FaultIn(failAt: Option<nat>, lo: nat, count: nat) {
    failAt.Some? && lo <= failAt.value < lo + count
  }

  /** The statement primitive every transaction step goes through: the
      statement at index `t.step`, whose effect is `next`, raises when the
      fault is injected there and otherwise moves the transaction on. */
  function Exec(t: Tx, failAt: Option<nat>, next: Db): (r: Option<Tx>)
    ensures r.None? <==> failAt == Some(t.step)
    ensures r.Some? ==> r.value == Tx(next, t.step + 1)
  {
    if failAt == Some(t.step) then None else Some(Tx(next, t.step + 1))
  }

  /** The child rows the loop body writes for one question: each option of
      a multiple_choice question whose `options` is present (an empty array
      is truthy), one answer for a fill_blank question whose `answer` is a
      non-empty string, nothing otherwise. Options sent with a fill_blank
      question and an answer sent with a multiple_choice one are dropped. */
  function ChildStatements(q: Question): nat {
    match q.kind
    case MultipleChoice => if q.options.Some? then |q.options.value| else 0
    case FillBlank => if q.answer.Some? && q.answer.value != "" then 1 else 0
  }

  /** The number of INSERTs the question loop issues. */
  function Statements(qs: seq<Question>): nat {
    if qs == [] then 0 else 1 + ChildStatements(qs[0]) + Statements(qs[1..])
  }

  /** The inner loop: one `INSERT INTO options` per option, in order. */
  function InsertOptions(t: Tx, questionId: nat, cs: seq<Choice>, failAt: Option<nat>): (r: Option<Tx>)
    ensures r.None? <==> FaultIn(failAt, t.step, |cs|)
    ensures r.Some? ==> r.value.step == t.step + |cs|
    decreases |cs|
  {
    if cs == [] then Some(t)
    else
      match Exec(t, failAt, AddOptionRow(t.db, questionId, cs[0]))
      case None => None
      case Some(t1) => InsertOptions(t1, questionId, cs[1..], failAt)
  }

  /** One iteration of the question loop: the question row, then its
      children as `ChildStatements` describes. */
  function InsertQuestion(t: Tx, quizId: nat, q: Question, failAt: Option<nat>): (r: Option<Tx>)
    ensures r.None? <==> FaultIn(failAt, t.step, 1 + ChildStatements(q))
    ensures r.Some? ==> r.value.step == t.step + 1 + ChildStatements(q)
  {
    var questionId := t.db.nextId;
    match Exec(t, failAt, AddQuestionRow(t.db, quizId, QuestionData(q.text, q.kind)))
    case None => None
    case Some(t1) =>
      if q.kind == MultipleChoice && q.options.Some? then
        InsertOptions(t1, questionId, q.options.value, failAt)
      else if q.kind == FillBlank && q.answer.Some? && q.answer.value != "" then
        Exec(t1, failAt, AddAnswerRow(t1.db, questionId, q.answer.value))
      else Some(t1)
  }

  /** The question loop, in input order. */
  function InsertQuestions(t: Tx, quizId: nat, qs: seq<Question>, failAt: Option<nat>): (r: Option<Tx>)
    ensures r.None? <==> FaultIn(failAt, t.step, Statements(qs))
    ensures r.Some? ==> r.value.step == t.step + Statements(qs)
    decreases |qs|
  {
    if qs == [] then Some(t)
    else
      match InsertQuestion(t, quizId, qs[0], failAt)
      case None => None
      case Some(t1) => InsertQuestions(t1, quizId, qs[1..], failAt)
  }

  // ---------------------------------------------------------------------
  // What the inserts do to the database as `GET /:id` reads it.

  /** How a submitted question reads back once stored: a multiple_choice
      question with its options (none when `options` was absent) and no
      answer; a fill_blank question with its answer when that was a
      non-empty string, and no options. */
  function Normalize(q: Question): (r: Question)
    ensures r.text == q.text && r.kind == q.kind
    ensures r.kind == MultipleChoice ==> r.options == Some(q.options.GetOr([])) && r.answer.None?
    ensures r.kind == FillBlank ==> r.options.None?
    ensures r.kind == FillBlank ==> (r.answer.Some? <==> q.answer.Some? && q.answer.value != "")
    ensures r.kind == FillBlank && r.answer.Some? ==> r.answer == q.answer
  {
    match q.kind
    case MultipleChoice => Question(q.text, MultipleChoice, Some(q.options.GetOr([])), None)
    case FillBlank =>
      Question(q.text, FillBlank, None,
               if q.answer.Some? && q.answer.value != "" then q.answer else None)
  }

  function NormalizeAll(qs: seq<Question>): (r: seq<Question>)
    ensures |r| == |qs|
    ensures forall i :: 0 <= i < |qs| ==> r[i] == Normalize(qs[i])
  {
    seq(|qs|, i requires 0 <= i < |qs| => Normalize(qs[i]))
  }

  /** Question rows, and the child rows of every other question, are as
      they were. */
  predicate QuestionsKept(db: Db, d: Db, except: nat) {
    && (forall k :: k in db.questions ==> k in d.questions)
    && (forall k :: k in db.questions && k != except ==> ViewQuestion(d, k) == ViewQuestion(db, k))
  }

  /** A question whose row, child lists and child rows agree in two
      databases reads the same in both. */
  lemma ViewQuestionFrame(db: Db, d: Db, k: nat)
    requires k in db.questions && k in d.questions && d.questions[k] == db.questions[k]
    requires Children(d.options, k, d.nextId) == Children(db.options, k, db.nextId)
    requires Children(d.answers, k, d.nextId) == Children(db.answers, k, db.nextId)
    requires forall j :: j in db.options && db.options[j].parent == k ==> j in d.options && d.options[j] == db.options[j]
    requires forall j :: j in db.answers && db.answers[j].parent == k ==> j in d.answers && d.answers[j] == db.answers[j]
    ensures ViewQuestion(d, k) == ViewQuestion(db, k)
  {
    var ids := Children(db.options, k, db.nextId);
    assert OptionViews(d, ids) == OptionViews(db, ids);
  }

  lemma KeptTrans(a: Db, b: Db, c: Db, except: nat)
    requires QuestionsKept(a, b, except) && QuestionsKept(b, c, except)
    ensures QuestionsKept(a, c, except)
  {
  }

  /** Questions whose rows, child rows and child lists are unchanged read
      the same; `except` is left out. */
  lemma ViewsKept(db: Db, d: Db, except: nat)
    requires forall k :: k in db.questions ==> k in d.questions && d.questions[k] == db.questions[k]
    requires forall k :: k in db.questions && k != except ==>
               && Children(d.options, k, d.nextId) == Children(db.options, k, db.nextId)
               && Children(d.answers, k, d.nextId) == Children(db.answers, k, db.nextId)
    requires forall j :: j in db.options ==> j in d.options && d.options[j] == db.options[j]
    requires forall j :: j in db.answers ==> j in d.answers && d.answers[j] == db.answers[j]
    ensures forall k :: k in db.questions && k != except ==> ViewQuestion(d, k) == ViewQuestion(db, k)
  {
    forall k | k in db.questions && k != except
      ensures ViewQuestion(d, k) == ViewQuestion(db, k)
    {
      ViewQuestionFrame(db, d, k);
    }
  }

  /** An option row added under `qid` joins the end of its option list. */
  lemma AddOptionView(db: Db, qid: nat, c: Choice)
    requires Below(db.options, db.nextId) && Below(db.answers, db.nextId)
    requires qid in db.questions && db.questions[qid].data.kind == MultipleChoice
    ensures var d := AddOptionRow(db, qid, c);
      && ViewQuestion(d, qid).options.Some?
      && OptionChoices(ViewQuestion(d, qid).options.value)
         == OptionChoices(ViewQuestion(db, qid).options.value) + [c]
      && ViewQuestion(d, qid).(options := None) == ViewQuestion(db, qid).(options := None)
  {
    var d := AddOptionRow(db, qid, c);
    var n := db.nextId;
    ChildrenAdd(db.options, n, Row(qid, c), qid);
    var ids := Children(db.options, qid, n);
    var ov := OptionViews(db, ids);
    var added := OptionView(n, qid, c.text, c.isCorrect);
    assert ViewQuestion(d, qid).options == Some(ov + [added]) by {
      OptionViewsAppend(db, d, ids, n);
    }
    assert OptionChoices(ov + [added]) == OptionChoices(ov) + [c];
  }

  lemma AddOptionKept(db: Db, qid: nat, c: Choice)
    requires Below(db.options, db.nextId) && Below(db.answers, db.nextId)
    ensures QuestionsKept(db, AddOptionRow(db, qid, c), qid)
  {
    ChildrenBump(db.answers, db.nextId);
    ChildrenAddAll(db.options, db.nextId, Row(qid, c));
    ViewsKept(db, AddOptionRow(db, qid, c), qid);
  }

  /** An option row added under `qid` leaves every other question, and
      every question list, as it was. */
  lemma AddOptionFrame(db: Db, qid: nat, c: Choice)
    requires Wf(db) && qid in db.questions && db.questions[qid].data.kind == MultipleChoice
    ensures var d := AddOptionRow(db, qid, c);
      && Wf(d)
      && QuestionsKept(db, d, qid)
      && forall x :: Children(d.questions, x, d.nextId) == Children(db.questions, x, db.nextId)
  {
    var d := AddOptionRow(db, qid, c);
    var n := db.nextId;
    assert Wf(d) by {
      AddOptionRowWf(db, qid, c);
    }
    AddOptionKept(db, qid, c);
    ChildrenBump(db.questions, n);
  }

  lemma OptionViewsAppend(db: Db, d: Db, ids: seq<nat>, n: nat)
    requires forall i :: 0 <= i < |ids| ==> ids[i] in db.options && ids[i] != n
    requires n in d.options
    requires forall k :: k in db.options ==> k in d.options && d.options[k] == db.options[k]
    ensures OptionViews(d, ids + [n])
            == OptionViews(db, ids) + [OptionView(n, d.options[n].parent, d.options[n].data.text, d.options[n].data.isCorrect)]
  {
  }

  /** The first answer row of a question without one becomes its answer. */
  lemma AddAnswerView(db: Db, qid: nat, a: string)
    requires Below(db.answers, db.nextId)
    requires qid in db.questions && db.questions[qid].data.kind == FillBlank
    requires ViewQuestion(db, qid).answer.None?
    ensures ViewQuestion(AddAnswerRow(db, qid, a), qid) == ViewQuestion(db, qid).(answer := Some(a))
  {
    ChildrenAdd(db.answers, db.nextId, Row(qid, a), qid);
    assert Children(db.answers, qid, db.nextId) == [];
  }

  lemma AddAnswerKept(db: Db, qid: nat, a: string)
    requires Below(db.options, db.nextId) && Below(db.answers, db.nextId)
    ensures QuestionsKept(db, AddAnswerRow(db, qid, a), qid)
  {
    ChildrenBump(db.options, db.nextId);
    ChildrenAddAll(db.answers, db.nextId, Row(qid, a));
    ViewsKept(db, AddAnswerRow(db, qid, a), qid);
  }

  lemma AddAnswerFrame(db: Db, qid: nat, a: string)
    requires Wf(db) && qid in db.questions && db.questions[qid].data.kind == FillBlank
    ensures var d := AddAnswerRow(db, qid, a);
      && Wf(d)
      && QuestionsKept(db, d, qid)
      && forall x :: Children(d.questions, x, d.nextId) == Children(db.questions, x, db.nextId)
  {
    var d := AddAnswerRow(db, qid, a);
    var n := db.nextId;
    assert Wf(d) by {
      AddAnswerRowWf(db, qid, a);
    }
    AddAnswerKept(db, qid, a);
    ChildrenBump(db.questions, n);
  }

  lemma AddAnswerStep(db: Db, qid: nat, a: string)
    requires Wf(db) && qid in db.questions && db.questions[qid].data.kind == FillBlank
    requires ViewQuestion(db, qid).answer.None?
    ensures var d := AddAnswerRow(db, qid, a);
      && Wf(d)
      && QuestionsKept(db, d, qid)
      && ViewQuestion(d, qid) == ViewQuestion(db, qid).(answer := Some(a))
      && forall x :: Children(d.questions, x, d.nextId) == Children(db.questions, x, db.nextId)
  {
    AddAnswerView(db, qid, a);
    AddAnswerFrame(db, qid, a);
  }

  lemma AddQuestionStep(db: Db, quizId: nat, data: QuestionData)
    requires Wf(db) && quizId in db.quizzes
    ensures var d := AddQuestionRow(db, quizId, data);
      && Wf(d)
      && QuestionsKept(db, d, db.nextId)
      && db.nextId in d.questions
      && ViewQuestion(d, db.nextId)
         == QuestionView(db.nextId, quizId, data.text, data.kind,
                         if data.kind == MultipleChoice then Some([]) else None, None)
      && forall x :: Children(d.questions, x, d.nextId)
                     == Children(db.questions, x, db.nextId) + (if x == quizId then [db.nextId] else [])
  {
    var d := AddQuestionRow(db, quizId, data);
    var n := db.nextId;
    assert Wf(d) by {
      AddQuestionRowWf(db, quizId, data);
    }
    assert QuestionsKept(db, d, n) by {
      ChildrenBump(db.options, n);
      ChildrenBump(db.answers, n);
      ViewsKept(db, d, n);
    }
    assert ViewQuestion(d, n).options == if data.kind == MultipleChoice then Some([]) else None by {
      ChildrenNone(db.options, n, n);
    }
    assert ViewQuestion(d, n).answer == None by {
      ChildrenNone(db.answers, n, n);
    }
    ChildrenAddAll(db.questions, n, Row(quizId, data));
  }

  /** The option loop touches nothing but the option rows. */
  lemma {:induction false} InsertOptionsFrame(t: Tx, qid: nat, cs: seq<Choice>, failAt: Option<nat>, d: Db)
    requires Wf(t.db) && qid in t.db.questions && t.db.questions[qid].data.kind == MultipleChoice
    requires InsertOptions(t, qid, cs, failAt).Some?
    requires d == InsertOptions(t, qid, cs, failAt).value.db
    ensures Wf(d)
    ensures d.quizzes == t.db.quizzes && d.questions == t.db.questions
    ensures QuestionsKept(t.db, d, qid)
    ensures forall x :: Children(d.questions, x, d.nextId) == Children(t.db.questions, x, t.db.nextId)
    decreases |cs|
  {
    if cs == [] {
      assert d == t.db;
    } else {
      var t1 := Tx(AddOptionRow(t.db, qid, cs[0]), t.step + 1);
      assert InsertOptions(t, qid, cs, failAt) == InsertOptions(t1, qid, cs[1..], failAt);
      AddOptionFrame(t.db, qid, cs[0]);
      InsertOptionsFrame(t1, qid, cs[1..], failAt, d);
    }
  }

  /** The option loop appends its choices, in order, to the question's
      options and leaves the rest of the question alone. */
  lemma {:induction false} InsertOptionsView(t: Tx, qid: nat, cs: seq<Choice>, failAt: Option<nat>, d: Db)
    requires Below(t.db.options, t.db.nextId) && Below(t.db.answers, t.db.nextId)
    requires qid in t.db.questions && t.db.questions[qid].data.kind == MultipleChoice
    requires InsertOptions(t, qid, cs, failAt).Some?
    requires d == InsertOptions(t, qid, cs, failAt).value.db
    ensures d.questions == t.db.questions
    ensures ViewQuestion(d, qid).options.Some?
    ensures OptionChoices(ViewQuestion(d, qid).options.value)
            == OptionChoices(ViewQuestion(t.db, qid).options.value) + cs
    ensures ViewQuestion(d, qid).(options := None) == ViewQuestion(t.db, qid).(options := None)
    decreases |cs|
  {
    if cs == [] {
      assert d == t.db;
    } else {
      var d1 := AddOptionRow(t.db, qid, cs[0]);
      var t1 := Tx(d1, t.step + 1);
      assert InsertOptions(t, qid, cs, failAt) == InsertOptions(t1, qid, cs[1..], failAt);
      AddOptionView(t.db, qid, cs[0]);
      InsertOptionsView(t1, qid, cs[1..], failAt, d);
      var o0 := OptionChoices(ViewQuestion(t.db, qid).options.value);
      var o2 := OptionChoices(ViewQuestion(d, qid).options.value);
      assert o2 == o0 + cs by {
        assert o2 == o0 + [cs[0]] + cs[1..];
        assert cs == [cs[0]] + cs[1..];
      }
    }
  }

  lemma InsertOptionsEffect(t: Tx, qid: nat, cs: seq<Choice>, failAt: Option<nat>, d: Db)
    requires Wf(t.db) && qid in t.db.questions && t.db.questions[qid].data.kind == MultipleChoice
    requires InsertOptions(t, qid, cs, failAt).Some?
    requires d == InsertOptions(t, qid, cs, failAt).value.db
    ensures Wf(d)
    ensures d.quizzes == t.db.quizzes && d.questions == t.db.questions
    ensures QuestionsKept(t.db, d, qid)
    ensures ViewQuestion(d, qid).options.Some?
    ensures OptionChoices(ViewQuestion(d, qid).options.value)
            == OptionChoices(ViewQuestion(t.db, qid).options.value) + cs
    ensures ViewQuestion(d, qid).(options := None) == ViewQuestion(t.db, qid).(options := None)
    ensures forall x :: Children(d.questions, x, d.nextId) == Children(t.db.questions, x, t.db.nextId)
  {
    InsertOptionsFrame(t, qid, cs, failAt, d);
    InsertOptionsView(t, qid, cs, failAt, d);
  }

  /** One iteration adds exactly one question row, the one at the fresh id. */
  lemma InsertQuestionKeys(t: Tx, quizId: nat, q: Question, failAt: Option<nat>, d: Db)
    requires Wf(t.db) && quizId in t.db.quizzes
    requires InsertQuestion(t, quizId, q, failAt).Some?
    requires d == InsertQuestion(t, quizId, q, failAt).value.db
    ensures d.questions.Keys == t.db.questions.Keys + {t.db.nextId}
    ensures d.nextId >= t.db.nextId
  {
    var n := t.db.nextId;
    var d1 := AddQuestionRow(t.db, quizId, QuestionData(q.text, q.kind));
    var t1 := Tx(d1, t.step + 1);
    if q.kind == MultipleChoice && q.options.Some? {
      InsertOptionsNextId(t1, n, q.options.value, failAt, d);
    }
  }

  lemma {:induction false} InsertOptionsNextId(t: Tx, qid: nat, cs: seq<Choice>, failAt: Option<nat>, d: Db)
    requires InsertOptions(t, qid, cs, failAt).Some?
    requires d == InsertOptions(t, qid, cs, failAt).value.db
    ensures d.nextId == t.db.nextId + |cs|
    ensures d.questions == t.db.questions
    decreases |cs|
  {
    if cs != [] {
      var t1 := Tx(AddOptionRow(t.db, qid, cs[0]), t.step + 1);
      assert InsertOptions(t, qid, cs, failAt) == InsertOptions(t1, qid, cs[1..], failAt);
      InsertOptionsNextId(t1, qid, cs[1..], failAt, d);
    }
  }

  /** A multiple_choice question with options: its row, then its options. */
  lemma InsertQuestionWithOptions(db: Db, quizId: nat, q: Question, t1: Tx, failAt: Option<nat>, d: Db)
    requires Wf(db) && quizId in db.quizzes && q.kind == MultipleChoice && q.options.Some?
    requires t1.db == AddQuestionRow(db, quizId, QuestionData(q.text, q.kind))
    requires InsertOptions(t1, db.nextId, q.options.value, failAt).Some?
    requires d == InsertOptions(t1, db.nextId, q.options.value, failAt).value.db
    ensures Wf(d)
    ensures d.quizzes == db.quizzes
    ensures QuestionsKept(db, d, db.nextId)
    ensures db.nextId in d.questions
    ensures ContentOf(ViewQuestion(d, db.nextId)) == Normalize(q)
    ensures forall x :: Children(d.questions, x, d.nextId)
                        == Children(db.questions, x, db.nextId) + (if x == quizId then [db.nextId] else [])
  {
    var n := db.nextId;
    var d1 := t1.db;
    AddQuestionStep(db, quizId, QuestionData(q.text, q.kind));
    InsertOptionsEffect(t1, n, q.options.value, failAt, d);
    KeptTrans(db, d1, d, n);
    var v1 := ViewQuestion(d1, n);
    var v := ViewQuestion(d, n);
    assert OptionChoices(v1.options.value) == [];
    assert v.(options := None) == v1.(options := None);
    assert OptionChoices(v.options.value) == q.options.value;
    assert ContentOf(v) == Question(q.text, MultipleChoice, Some(q.options.value), None);
  }

  /** A fill_blank question with a non-empty answer: its row, then the
      answer row. */
  lemma InsertQuestionWithAnswer(db: Db, quizId: nat, q: Question, d: Db)
    requires Wf(db) && quizId in db.quizzes && q.kind == FillBlank && q.answer.Some? && q.answer.value != ""
    requires d == AddAnswerRow(AddQuestionRow(db, quizId, QuestionData(q.text, q.kind)), db.nextId, q.answer.value)
    ensures Wf(d)
    ensures d.quizzes == db.quizzes
    ensures QuestionsKept(db, d, db.nextId)
    ensures db.nextId in d.questions
    ensures ContentOf(ViewQuestion(d, db.nextId)) == Normalize(q)
    ensures forall x :: Children(d.questions, x, d.nextId)
                        == Children(db.questions, x, db.nextId) + (if x == quizId then [db.nextId] else [])
  {
    var d1 := AddQuestionRow(db, quizId, QuestionData(q.text, q.kind));
    AddQuestionStep(db, quizId, QuestionData(q.text, q.kind));
    AddAnswerStep(d1, db.nextId, q.answer.value);
    KeptTrans(db, d1, d, db.nextId);
  }

  lemma InsertQuestionEffect(t: Tx, quizId: nat, q: Question, failAt: Option<nat>, d: Db)
    requires Wf(t.db) && quizId in t.db.quizzes
    requires InsertQuestion(t, quizId, q, failAt).Some?
    requires d == InsertQuestion(t, quizId, q, failAt).value.db
    ensures Wf(d)
    ensures d.quizzes == t.db.quizzes
    ensures QuestionsKept(t.db, d, t.db.nextId)
    ensures t.db.nextId in d.questions
    ensures ContentOf(ViewQuestion(d, t.db.nextId)) == Normalize(q)
    ensures forall x :: Children(d.questions, x, d.nextId)
                        == Children(t.db.questions, x, t.db.nextId) + (if x == quizId then [t.db.nextId] else [])
  {
    var d1 := AddQuestionRow(t.db, quizId, QuestionData(q.text, q.kind));
    if q.kind == MultipleChoice && q.options.Some? {
      InsertQuestionWithOptions(t.db, quizId, q, Tx(d1, t.step + 1), failAt, d);
    } else if q.kind == FillBlank && q.answer.Some? && q.answer.value != "" {
      InsertQuestionWithAnswer(t.db, quizId, q, d);
    } else {
      AddQuestionStep(t.db, quizId, QuestionData(q.text, q.kind));
    }
  }

  lemma ViewQuestionsKept(db: Db, d: Db, ids: seq<nat>)
    requires forall i :: 0 <= i < |ids| ==> ids[i] in db.questions && ids[i] in d.questions
    requires forall i :: 0 <= i < |ids| ==> ViewQuestion(d, ids[i]) == ViewQuestion(db, ids[i])
    ensures ViewQuestions(d, ids) == ViewQuestions(db, ids)
  {
  }

  lemma ContentsAppend(a: seq<QuestionView>, b: seq<QuestionView>)
    ensures Contents(a + b) == Contents(a) + Contents(b)
  {
  }

  /** Appending one question to a quiz whose other questions are kept
      appends its content to the quiz's content. */
  lemma AppendQuestion(db: Db, d: Db, quizId: nat, n: nat)
    requires Wf(db) && n == db.nextId && QuestionsKept(db, d, n) && n in d.questions
    requires Children(d.questions, quizId, d.nextId) == Children(db.questions, quizId, db.nextId) + [n]
    ensures Contents(QuestionsOf(d, quizId)) == Contents(QuestionsOf(db, quizId)) + [ContentOf(ViewQuestion(d, n))]
  {
    var before := Children(db.questions, quizId, db.nextId);
    ViewQuestionsKept(db, d, before);
    assert ViewQuestions(d, before + [n]) == ViewQuestions(d, before) + [ViewQuestion(d, n)];
    ContentsAppend(QuestionsOf(db, quizId), [ViewQuestion(d, n)]);
  }

  /** The question loop keeps the database well formed, touches no quiz
      row, and leaves every earlier question and every other quiz's
      question list as they were. */
  lemma {:induction false} InsertQuestionsFrame(t: Tx, quizId: nat, qs: seq<Question>, failAt: Option<nat>, d: Db)
    requires Wf(t.db) && quizId in t.db.quizzes
    requires InsertQuestions(t, quizId, qs, failAt).Some?
    requires d == InsertQuestions(t, quizId, qs, failAt).value.db
    ensures Wf(d)
    ensures d.quizzes == t.db.quizzes
    ensures forall k :: k in t.db.questions ==> k in d.questions && ViewQuestion(d, k) == ViewQuestion(t.db, k)
    ensures forall k :: k in d.questions && k < t.db.nextId ==> k in t.db.questions
    ensures d.nextId >= t.db.nextId
    ensures forall x :: x != quizId ==>
              Children(d.questions, x, d.nextId) == Children(t.db.questions, x, t.db.nextId)
    decreases |qs|
  {
    if qs == [] {
      assert d == t.db;
    } else {
      var t1 := InsertQuestion(t, quizId, qs[0], failAt).value;
      assert InsertQuestions(t, quizId, qs, failAt) == InsertQuestions(t1, quizId, qs[1..], failAt);
      InsertQuestionEffect(t, quizId, qs[0], failAt, t1.db);
      InsertQuestionKeys(t, quizId, qs[0], failAt, t1.db);
      InsertQuestionsFrame(t1, quizId, qs[1..], failAt, d);
    }
  }

  /** The question loop appends the submitted questions, in order and in
      their stored form, to the quiz's question list. */
  lemma {:induction false} InsertQuestionsEffect(t: Tx, quizId: nat, qs: seq<Question>, failAt: Option<nat>, d: Db)
    requires Wf(t.db) && quizId in t.db.quizzes
    requires InsertQuestions(t, quizId, qs, failAt).Some?
    requires d == InsertQuestions(t, quizId, qs, failAt).value.db
    ensures Contents(QuestionsOf(d, quizId)) == Contents(QuestionsOf(t.db, quizId)) + NormalizeAll(qs)
    decreases |qs|
  {
    if qs == [] {
      assert d == t.db;
      assert NormalizeAll(qs) == [];
    } else {
      var t1 := InsertQuestion(t, quizId, qs[0], failAt).value;
      assert InsertQuestions(t, quizId, qs, failAt) == InsertQuestions(t1, quizId, qs[1..], failAt);
      var c0 := Contents(QuestionsOf(t.db, quizId));
      var c1 := Contents(QuestionsOf(t1.db, quizId));
      var c2 := Contents(QuestionsOf(d, quizId));
      assert Wf(t1.db) && quizId in t1.db.quizzes && c1 == c0 + [Normalize(qs[0])] by {
        InsertQuestionEffect(t, quizId, qs[0], failAt, t1.db);
        AppendQuestion(t.db, t1.db, quizId, t.db.nextId);
      }
      assert c2 == c1 + NormalizeAll(qs[1..]) by {
        InsertQuestionsEffect(t1, quizId, qs[1..], failAt, d);
      }
      assert c2 == c0 + NormalizeAll(qs) by {
        var head, rest := [Normalize(qs[0])], NormalizeAll(qs[1..]);
        assert NormalizeAll(qs) == head + rest;
        AppendAssoc(c0, head, rest);
      }
    }
  }

  // ---------------------------------------------------------------------
  // Statements outside the loop.

  lemma QuestionsOfKept(db: Db, d: Db, x: nat)
    requires Wf(db)
    requires Children(d.questions, x, d.nextId) == Children(db.questions, x, db.nextId)
    requires forall k :: k in db.questions ==> k in d.questions && ViewQuestion(d, k) == ViewQuestion(db, k)
    ensures QuestionsOf(d, x) == QuestionsOf(db, x)
  {
    ViewQuestionsKept(db, d, Children(db.questions, x, db.nextId));
  }

  lemma AddQuizStep(db: Db, teacher: nat, data: QuizData)
    requires Wf(db)
    ensures var d := AddQuizRow(db, teacher, data);
      && Wf(d)
      && (forall k :: k in db.questions ==> k in d.questions && ViewQuestion(d, k) == ViewQuestion(db, k))
      && (forall x :: Children(d.questions, x, d.nextId) == Children(db.questions, x, db.nextId))
      && QuestionsOf(d, db.nextId) == []
  {
    var d := AddQuizRow(db, teacher, data);
    var n := db.nextId;
    assert Wf(d) by {
      AddQuizRowWf(db, teacher, data);
    }
    ChildrenBump(db.questions, n);
    ChildrenBump(db.options, n);
    ChildrenBump(db.answers, n);
    ViewsKept(db, d, n);
    assert QuestionsOf(d, n) == [] by {
      ChildrenNone(d.questions, n + 1, n);
    }
  }

  lemma SetQuizTextStep(db: Db, id: nat, title: string, description: string)
    requires Wf(db) && id in db.quizzes
    ensures var d := SetQuizText(db, id, title, description);
      && Wf(d)
      && forall x :: QuestionsOf(d, x) == QuestionsOf(db, x)
  {
    var d := SetQuizText(db, id, title, description);
    SetQuizTextWf(db, id, title, description);
    forall k | k in db.questions
      ensures ViewQuestion(d, k) == ViewQuestion(db, k)
    {
      ViewQuestionFrame(db, d, k);
    }
    forall x
      ensures QuestionsOf(d, x) == QuestionsOf(db, x)
    {
      QuestionsOfKept(db, d, x);
    }
  }

  /** Deleting a quiz's questions empties its question list and leaves
      every other quiz's list as it was. */
  lemma DeleteQuestionsStep(db: Db, quizId: nat)
    requires Wf(db)
    ensures var d := DeleteQuestionsOf(db, quizId);
      && Wf(d)
      && QuestionsOf(d, quizId) == []
      && (forall k :: k in db.questions && db.questions[k].parent == quizId ==> k !in d.questions)
      && forall x :: x != quizId ==> QuestionsOf(d, x) == QuestionsOf(db, x)
  {
    var d := DeleteQuestionsOf(db, quizId);
    var n := db.nextId;
    DeleteQuestionsOfWf(db, quizId);
    ChildrenNone(d.questions, n, quizId);
    forall x | x != quizId
      ensures QuestionsOf(d, x) == QuestionsOf(db, x)
    {
      ChildrenFrame(d.questions, n, db.questions, n, x);
      forall k | k in Children(db.questions, x, n)
        ensures ViewQuestion(d, k) == ViewQuestion(db, k)
      {
        ChildrenFrame(d.options, n, db.options, n, k);
        ChildrenFrame(d.answers, n, db.answers, n, k);
        ViewQuestionFrame(db, d, k);
      }
      ViewQuestionsKept(db, d, Children(db.questions, x, n));
    }
  }

  // ---------------------------------------------------------------------
  // The handlers.

  /** What a write handler answers. */
  datatype Reply =
    | Created(quizId: nat)   // 201 { message: 'Quiz created successfully', quizId }
    | Updated                // 200 { message: 'Quiz updated successfully' }
    | Deleted                // 200 { message: 'Quiz deleted successfully' }
    | NotFound               // 404 { message: 'Quiz not found' }
    | InvalidRequest         // 400 { message: 'Invalid request' }

  /** Statements of the create transaction: the quiz row, the question
      loop, COMMIT. */
  function CreateStatements(quiz: Quiz): nat {
    1 + Statements(quiz.questions) + 1
  }

  /** BEGIN; INSERT the quiz; the question loop; COMMIT. `None` when a
      statement raised. */
  function CreateTx(db: Db, caller: nat, quiz: Quiz, now: nat, failAt: Option<nat>): (r: Option<(nat, Db)>)
    ensures r.None? <==> FaultIn(failAt, 0, CreateStatements(quiz))
    ensures r.Some? ==> r.value.0 == db.nextId
  {
    var id := db.nextId;
    match Exec(Tx(db, 0), failAt, AddQuizRow(db, caller, QuizData(quiz.title, quiz.description, now)))
    case None => None
    case Some(t1) =>
      match InsertQuestions(t1, id, quiz.questions, failAt)
      case None => None
      case Some(t2) =>
        match Exec(t2, failAt, t2.db)
        case None => None
        case Some(t3) => Some((id, t3.db))
  }

  /** `POST /`: validate, then run the transaction; on any error roll back
      and answer 400. The caller id is the identity the guard attached. */
  function Create(db: Db, caller: nat, body: QuizBody, now: nat, failAt: Option<nat>): (r: (Reply, Db))
    ensures !r.0.Created? ==> r.0 == InvalidRequest && r.1 == db
    ensures !ValidQuizBody(body) ==> r == (InvalidRequest, db)
    ensures ValidQuizBody(body) ==>
              (r.0.Created? <==> !FaultIn(failAt, 0, CreateStatements(ParseQuiz(body).value)))
    ensures r.0.Created? ==> r.0.quizId == db.nextId
  {
    match ParseQuiz(body)
    case None => (InvalidRequest, db)
    case Some(quiz) =>
      match CreateTx(db, caller, quiz, now, failAt)
      case None => (InvalidRequest, db)
      case Some((id, d)) => (Created(id), d)
  }

  /** A successful create adds exactly one quiz, owned by the caller, whose
      question list reads back as the submitted questions in order, and
      leaves every other quiz and its questions as they were. */
  lemma CreateEffect(db: Db, caller: nat, body: QuizBody, now: nat, failAt: Option<nat>)
    requires Wf(db)
    ensures var (reply, d) := Create(db, caller, body, now, failAt);
      && Wf(d)
      && (reply.Created? ==>
            && reply.quizId !in db.quizzes
            && d.quizzes == db.quizzes[reply.quizId := Row(caller, QuizData(body.title, body.description, now))]
            && Contents(QuestionsOf(d, reply.quizId)) == NormalizeAll(ParseQuiz(body).value.questions)
            && forall x :: x in db.quizzes ==> QuestionsOf(d, x) == QuestionsOf(db, x))
  {
    var (reply, d) := Create(db, caller, body, now, failAt);
    if reply.Created? {
      var quiz := ParseQuiz(body).value;
      var id := db.nextId;
      var d1 := AddQuizRow(db, caller, QuizData(quiz.title, quiz.description, now));
      var t1 := Tx(d1, 1);
      var t2 := InsertQuestions(t1, id, quiz.questions, failAt).value;
      assert d == t2.db;
      AddQuizStep(db, caller, QuizData(quiz.title, quiz.description, now));
      InsertQuestionsFrame(t1, id, quiz.questions, failAt, d);
      InsertQuestionsEffect(t1, id, quiz.questions, failAt, d);
      forall x | x in db.quizzes
        ensures QuestionsOf(d, x) == QuestionsOf(db, x)
      {
        QuestionsOfKept(d1, d, x);
        QuestionsOfKept(db, d1, x);
      }
    }
  }

  /** The outcome of the update transaction. */
  datatype UpdateOutcome = Aborted | NoRow | Committed(db: Db)

  /** Statements of the update transaction: UPDATE, DELETE, the question
      loop, COMMIT. */
  function UpdateStatements(quiz: Quiz): nat {
    2 + Statements(quiz.questions) + 1
  }

  /** BEGIN; UPDATE ... WHERE id AND teacher_id; on no row ROLLBACK (which
      is statement 1 and can raise too) and 404; otherwise DELETE the
      quiz's questions, the question loop, COMMIT. */
  function UpdateTx(db: Db, caller: nat, id: nat, quiz: Quiz, failAt: Option<nat>): (r: UpdateOutcome)
    ensures r == NoRow <==> !FaultIn(failAt, 0, 2) && LookupQuiz(db, caller, id) != Owned
    ensures LookupQuiz(db, caller, id) != Owned ==> !r.Committed?
    ensures LookupQuiz(db, caller, id) == Owned ==>
              (r.Aborted? <==> FaultIn(failAt, 0, UpdateStatements(quiz)))
  {
    var owned := LookupQuiz(db, caller, id) == Owned;
    match Exec(Tx(db, 0), failAt, if owned then SetQuizText(db, id, quiz.title, quiz.description) else db)
    case None => Aborted
    case Some(t1) =>
      if !owned then
        match Exec(t1, failAt, db)
        case None => Aborted
        case Some(_) => NoRow
      else
        match Exec(t1, failAt, DeleteQuestionsOf(t1.db, id))
        case None => Aborted
        case Some(t2) =>
          match InsertQuestions(t2, id, quiz.questions, failAt)
          case None => Aborted
          case Some(t3) =>
            match Exec(t3, failAt, t3.db)
            case None => Aborted
            case Some(t4) => Committed(t4.db)
  }

  /** `PUT /:id`: validate, then run the transaction. A quiz that is absent
      or not the caller's gives 404; a raised statement, the ROLLBACK of
      the no-row path included, gives 400; both leave the database as it
      was. */
  function Update(db: Db, caller: nat, id: nat, body: QuizBody, failAt: Option<nat>): (r: (Reply, Db))
    ensures r.0 != Updated ==> r.1 == db
    ensures r.0 == Updated || r.0 == NotFound || r.0 == InvalidRequest
    ensures !ValidQuizBody(body) ==> r == (InvalidRequest, db)
    ensures ValidQuizBody(body) && LookupQuiz(db, caller, id) != Owned ==>
              r == (if FaultIn(failAt, 0, 2) then InvalidRequest else NotFound, db)
    ensures r.0 == NotFound <==> ValidQuizBody(body) && LookupQuiz(db, caller, id) != Owned && !FaultIn(failAt, 0, 2)
    ensures ValidQuizBody(body) && LookupQuiz(db, caller, id) == Owned ==>
              (r.0 == Updated <==> !FaultIn(failAt, 0, UpdateStatements(ParseQuiz(body).value)))
  {
    match ParseQuiz(body)
    case None => (InvalidRequest, db)
    case Some(quiz) =>
      match UpdateTx(db, caller, id, quiz, failAt)
      case Aborted => (InvalidRequest, db)
      case NoRow => (NotFound, db)
      case Committed(d) => (Updated, d)
  }

  /** A committed update ran UPDATE on an owned quiz, then DELETE, then
      the question loop whose result it committed. */
  lemma UpdateTxShape(db: Db, caller: nat, id: nat, quiz: Quiz, failAt: Option<nat>, d: Db)
    requires UpdateTx(db, caller, id, quiz, failAt) == Committed(d)
    ensures LookupQuiz(db, caller, id) == Owned
    ensures var d2 := DeleteQuestionsOf(SetQuizText(db, id, quiz.title, quiz.description), id);
      && InsertQuestions(Tx(d2, 2), id, quiz.questions, failAt).Some?
      && InsertQuestions(Tx(d2, 2), id, quiz.questions, failAt).value.db == d
  {
  }

  /** The two statements before the question loop: the quiz row's new
      text, then the removal of its questions. */
  lemma UpdatePrefix(db: Db, id: nat, title: string, description: string)
    requires Wf(db) && id in db.quizzes
    ensures var d2 := DeleteQuestionsOf(SetQuizText(db, id, title, description), id);
      && Wf(d2) && id in d2.quizzes && d2.nextId == db.nextId
      && d2.quizzes == db.quizzes[id := db.quizzes[id].(data := db.quizzes[id].data.(title := title, description := description))]
      && QuestionsOf(d2, id) == []
      && (forall k :: k in db.questions && db.questions[k].parent == id ==> k !in d2.questions)
      && forall x :: x != id ==> QuestionsOf(d2, x) == QuestionsOf(db, x)
  {
    var d1 := SetQuizText(db, id, title, description);
    assert Wf(d1) && forall x :: QuestionsOf(d1, x) == QuestionsOf(db, x) by {
      SetQuizTextStep(db, id, title, description);
    }
    DeleteQuestionsStep(d1, id);
  }

  /** The committed update transaction, stated on its result `d`. */
  lemma UpdateCommitted(db: Db, caller: nat, id: nat, quiz: Quiz, failAt: Option<nat>, d: Db)
    requires Wf(db)
    requires LookupQuiz(db, caller, id) == Owned
    requires var d2 := DeleteQuestionsOf(SetQuizText(db, id, quiz.title, quiz.description), id);
      && InsertQuestions(Tx(d2, 2), id, quiz.questions, failAt).Some?
      && InsertQuestions(Tx(d2, 2), id, quiz.questions, failAt).value.db == d
    ensures Wf(d)
    ensures d.quizzes == db.quizzes[id := Row(caller, QuizData(quiz.title, quiz.description,
                                                               db.quizzes[id].data.createdAt))]
    ensures Contents(QuestionsOf(d, id)) == NormalizeAll(quiz.questions)
    ensures forall k :: k in db.questions && db.questions[k].parent == id ==> k !in d.questions
    ensures forall x :: x != id ==> QuestionsOf(d, x) == QuestionsOf(db, x)
  {
    var d2 := DeleteQuestionsOf(SetQuizText(db, id, quiz.title, quiz.description), id);
    var t2 := Tx(d2, 2);
    UpdatePrefix(db, id, quiz.title, quiz.description);
    assert Wf(d) && d.quizzes == d2.quizzes
        && (forall k :: k in d2.questions ==> k in d.questions && ViewQuestion(d, k) == ViewQuestion(d2, k))
        && (forall k :: k in d.questions && k < d2.nextId ==> k in d2.questions)
        && (forall x :: x != id ==> Children(d.questions, x, d.nextId) == Children(d2.questions, x, d2.nextId)) by {
      InsertQuestionsFrame(t2, id, quiz.questions, failAt, d);
    }
    assert Contents(QuestionsOf(d, id)) == NormalizeAll(quiz.questions) by {
      InsertQuestionsEffect(t2, id, quiz.questions, failAt, d);
    }
    forall x | x != id
      ensures QuestionsOf(d, x) == QuestionsOf(db, x)
    {
      QuestionsOfKept(d2, d, x);
    }
    forall k | k in db.questions && db.questions[k].parent == id
      ensures k !in d.questions
    {
      assert k !in d2.questions;
      assert k < d2.nextId;
    }
  }

  /** A successful update replaces title and description, keeps owner and
      creation time, replaces the quiz's whole question list by the
      submitted one (no old question survives), and touches no other quiz. */
  lemma UpdateEffect(db: Db, caller: nat, id: nat, body: QuizBody, failAt: Option<nat>)
    requires Wf(db)
    ensures var (reply, d) := Update(db, caller, id, body, failAt);
      && Wf(d)
      && (reply == Updated ==>
            && id in db.quizzes && db.quizzes[id].parent == caller
            && d.quizzes == db.quizzes[id := Row(caller, QuizData(body.title, body.description,
                                                                  db.quizzes[id].data.createdAt))]
            && Contents(QuestionsOf(d, id)) == NormalizeAll(ParseQuiz(body).value.questions)
            && (forall k :: k in db.questions && db.questions[k].parent == id ==> k !in d.questions)
            && forall x :: x != id ==> QuestionsOf(d, x) == QuestionsOf(db, x))
  {
    var (reply, d) := Update(db, caller, id, body, failAt);
    if reply == Updated {
      var quiz := ParseQuiz(body).value;
      UpdateTxShape(db, caller, id, quiz, failAt, d);
      UpdateCommitted(db, caller, id, quiz, failAt, d);
    }
  }

  /** `DELETE /:id`: `DELETE FROM quizzes WHERE id AND teacher_id`, the
      cascade removing its questions, options and answers. */
  function Delete(db: Db, caller: nat, id: nat): (r: (Reply, Db))
    ensures r.0 == Deleted <==> LookupQuiz(db, caller, id) == Owned
    ensures r.0 != Deleted ==> r == (NotFound, db)
    ensures r.0 == Deleted ==> r.1.quizzes == db.quizzes - {id}
  {
    if LookupQuiz(db, caller, id) == Owned then (Deleted, DeleteQuizRow(db, id))
    else (NotFound, db)
  }

  /** A delete removes the quiz with all its questions and leaves every
      other quiz's questions as they were. */
  lemma DeleteEffect(db: Db, caller: nat, id: nat)
    requires Wf(db)
    ensures var (reply, d) := Delete(db, caller, id);
      && Wf(d)
      && Get(d, caller, id) == None
      && (reply == Deleted ==>
            forall k :: k in db.questions && db.questions[k].parent == id ==> k !in d.questions)
      && forall x :: x != id ==> QuestionsOf(d, x) == QuestionsOf(db, x)
  {
    var (reply, d) := Delete(db, caller, id);
    if reply == Deleted {
      var d1 := DeleteQuestionsOf(db, id);
      DeleteQuestionsStep(db, id);
      DeleteQuizRowWf(db, id);
      forall x | x != id
        ensures QuestionsOf(d, x) == QuestionsOf(db, x)
      {
        assert QuestionsOf(d, x) == QuestionsOf(d1, x) by {
          forall k | k in d1.questions
            ensures ViewQuestion(d, k) == ViewQuestion(d1, k)
          {
            ViewQuestionFrame(d1, d, k);
          }
          QuestionsOfKept(d1, d, x);
        }
      }
    }
  }

  // ---------------------------------------------------------------------
  // Writes as the read path sees them.

  /** Creating a quiz and then fetching it as its creator gives back the
      submitted quiz: the caller's ownership, title, description and the
      questions in their stored form, in input order. */
  lemma CreateThenGet(db: Db, caller: nat, body: QuizBody, now: nat, failAt: Option<nat>)
    requires Wf(db)
    ensures var (reply, d) := Create(db, caller, body, now, failAt);
      reply.Created? ==>
        && Get(d, caller, reply.quizId).Some?
        && Get(d, caller, reply.quizId).value.quiz
           == QuizRecord(reply.quizId, body.title, body.description, caller, now)
        && Contents(Get(d, caller, reply.quizId).value.questions)
           == NormalizeAll(ParseQuiz(body).value.questions)
  {
    CreateEffect(db, caller, body, now, failAt);
  }

  /** Updating a quiz and then fetching it gives the new title, description
      and question list, with the original owner and creation time. */
  lemma UpdateThenGet(db: Db, caller: nat, id: nat, body: QuizBody, failAt: Option<nat>)
    requires Wf(db)
    ensures var (reply, d) := Update(db, caller, id, body, failAt);
      reply == Updated ==>
        && Get(d, caller, id).Some?
        && Get(d, caller, id).value.quiz
           == QuizRecord(id, body.title, body.description, caller, db.quizzes[id].data.createdAt)
        && Contents(Get(d, caller, id).value.questions)
           == NormalizeAll(ParseQuiz(body).value.questions)
  {
    UpdateEffect(db, caller, id, body, failAt);
  }

  /** Another teacher's quiz is answered exactly as a missing one: the
      update filter matches no row either way. */
  lemma UpdateForeignAsAbsent(db: Db, db': Db, caller: nat, id: nat, body: QuizBody, failAt: Option<nat>)
    requires LookupQuiz(db, caller, id) == Foreign && LookupQuiz(db', caller, id) == Absent
    ensures Update(db, caller, id, body, failAt).0 == Update(db', caller, id, body, failAt).0
    ensures Update(db, caller, id, body, failAt).1 == db
  {
  }

  lemma DeleteForeignAsAbsent(db: Db, db': Db, caller: nat, id: nat)
    requires LookupQuiz(db, caller, id) == Foreign && LookupQuiz(db', caller, id) == Absent
    ensures Delete(db, caller, id).0 == Delete(db', caller, id).0 == NotFound
    ensures Delete(db, caller, id).1 == db
  {
  }

  // ---------------------------------------------------------------------
  // Stored answers are never empty.

  /** Every fill_blank answer row holds a non-empty string: the loop only
      inserts an answer that is one. */
  predicate AnswersFilled(db: Db) {
    forall k :: k in db.answers ==> db.answers[k].data != []
  }

  lemma {:induction false} InsertOptionsAnswers(t: Tx, qid: nat, cs: seq<Choice>, failAt: Option<nat>, d: Db)
    requires InsertOptions(t, qid, cs, failAt).Some?
    requires d == InsertOptions(t, qid, cs, failAt).value.db
    ensures d.answers == t.db.answers
    decreases |cs|
  {
    if cs != [] {
      var t1 := Tx(AddOptionRow(t.db, qid, cs[0]), t.step + 1);
      assert InsertOptions(t, qid, cs, failAt) == InsertOptions(t1, qid, cs[1..], failAt);
      InsertOptionsAnswers(t1, qid, cs[1..], failAt, d);
    }
  }

  lemma InsertQuestionFilled(t: Tx, quizId: nat, q: Question, failAt: Option<nat>, d: Db)
    requires AnswersFilled(t.db)
    requires InsertQuestion(t, quizId, q, failAt).Some?
    requires d == InsertQuestion(t, quizId, q, failAt).value.db
    ensures AnswersFilled(d)
  {
    var d1 := AddQuestionRow(t.db, quizId, QuestionData(q.text, q.kind));
    if q.kind == MultipleChoice && q.options.Some? {
      InsertOptionsAnswers(Tx(d1, t.step + 1), t.db.nextId, q.options.value, failAt, d);
    }
  }

  lemma {:induction false} InsertQuestionsFilled(t: Tx, quizId: nat, qs: seq<Question>, failAt: Option<nat>, d: Db)
    requires AnswersFilled(t.db)
    requires InsertQuestions(t, quizId, qs, failAt).Some?
    requires d == InsertQuestions(t, quizId, qs, failAt).value.db
    ensures AnswersFilled(d)
    decreases |qs|
  {
    if qs != [] {
      var t1 := InsertQuestion(t, quizId, qs[0], failAt).value;
      assert InsertQuestions(t, quizId, qs, failAt) == InsertQuestions(t1, quizId, qs[1..], failAt);
      InsertQuestionFilled(t, quizId, qs[0], failAt, t1.db);
      InsertQuestionsFilled(t1, quizId, qs[1..], failAt, d);
    }
  }

  /** The three write handlers keep every stored answer non-empty. */
  lemma WritesKeepAnswersFilled(db: Db, caller: nat, id: nat, body: QuizBody, now: nat, failAt: Option<nat>)
    requires AnswersFilled(db)
    ensures AnswersFilled(Create(db, caller, body, now, failAt).1)
    ensures AnswersFilled(Update(db, caller, id, body, failAt).1)
    ensures AnswersFilled(Delete(db, caller, id).1)
  {
    if Create(db, caller, body, now, failAt).0.Created? {
      var quiz := ParseQuiz(body).value;
      var d1 := AddQuizRow(db, caller, QuizData(quiz.title, quiz.description, now));
      InsertQuestionsFilled(Tx(d1, 1), db.nextId, quiz.questions, failAt, Create(db, caller, body, now, failAt).1);
    }
    var (reply, d) := Update(db, caller, id, body, failAt);
    if reply == Updated {
      var quiz := ParseQuiz(body).value;
      UpdateTxShape(db, caller, id, quiz, failAt, d);
      var d2 := DeleteQuestionsOf(SetQuizText(db, id, quiz.title, quiz.description), id);
      InsertQuestionsFilled(Tx(d2, 2), id, quiz.questions, failAt, d);
    }
  }

  /** What the read path shows of a question stored with answers filled is
      already in stored form: writing it back stores it unchanged. */
  lemma StoredFormIsNormal(db: Db, k: nat)
    requires AnswersFilled(db) && k in db.questions
    ensures Normalize(ContentOf(ViewQuestion(db, k))) == ContentOf(ViewQuestion(db, k))
  {
    var rows := Children(db.answers, k, db.nextId);
    if |rows| > 0 {
      assert rows[0] in db.answers;
    }
  }
}
