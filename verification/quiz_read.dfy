/** The two read handlers of the quiz router: `GET /` (the caller's
    quizzes, newest first) and `GET /:id` (one quiz with its questions,
    options and answers). Both are scoped to the caller's identity. */
module QuizRead {
  import opened Base
  import opened QuizSchema
  import opened Store

  /** An `options` row as `SELECT *` returns it. */
  datatype OptionView = OptionView(id: nat, questionId: nat, text: string, isCorrect: bool)

  /** A `questions` row plus what the handler attaches: `options` for a
      multiple_choice question, `answer` for a fill_blank one. */
  datatype QuestionView = QuestionView(id: nat, quizId: nat, text: string, kind: Kind,
                                       options: Option<seq<OptionView>>,
                                       answer: Option<string>)

  /** A `quizzes` row as `SELECT *` returns it. */
  datatype QuizRecord = QuizRecord(id: nat, title: string, description: string,
                                   teacherId: nat, createdAt: nat)

  /** The body of a successful `GET /:id`. */
  datatype QuizView = QuizView(quiz: QuizRecord, questions: seq<QuestionView>)

  function Record(db: Db, id: nat): (r: QuizRecord)
    requires id in db.quizzes
    ensures r.id == id && r.teacherId == db.quizzes[id].parent
    ensures r.title == db.quizzes[id].data.title && r.description == db.quizzes[id].data.description
    ensures r.createdAt == db.quizzes[id].data.createdAt
  {
    var row := db.quizzes[id];
    QuizRecord(id, row.data.title, row.data.description, row.parent, row.data.createdAt)
  }

  function OptionViews(db: Db, ids: seq<nat>): (r: seq<OptionView>)
    requires forall i :: 0 <= i < |ids| ==> ids[i] in db.options
    ensures |r| == |ids|
  {
    seq(|ids|, i requires 0 <= i < |ids| =>
      var row := db.options[ids[i]];
      OptionView(ids[i], row.parent, row.data.text, row.data.isCorrect))
  }

  /** One question as the handler assembles it: a multiple_choice question
      gets all its option rows (the query has no ORDER BY; the model lists
      them by id), a fill_blank question gets the answer of its first answer
      row, or none. */
  function ViewQuestion(db: Db, k: nat): (r: QuestionView)
    requires k in db.questions
    ensures r.id == k && r.quizId == db.questions[k].parent
    ensures r.kind == MultipleChoice ==> r.options.Some? && r.answer.None?
    ensures r.kind == FillBlank ==> r.options.None?
  {
    var row := db.questions[k];
    match row.data.kind
    case MultipleChoice =>
      QuestionView(k, row.parent, row.data.text, MultipleChoice,
                   Some(OptionViews(db, Children(db.options, k, db.nextId))), None)
    case FillBlank =>
      var rows := Children(db.answers, k, db.nextId);
      QuestionView(k, row.parent, row.data.text, FillBlank, None,
                   if |rows| == 0 then None else Some(db.answers[rows[0]].data))
  }

  /** `a` is the answer row of question `k` with the least id. */
  predicate FirstAnswer(db: Db, k: nat, a: nat) {
    && a < db.nextId && a in db.answers && db.answers[a].parent == k
    && forall b :: b in db.answers && b < a ==> db.answers[b].parent != k
  }

  /** What `ViewQuestion` attaches, stated on the rows: a multiple_choice
      question carries exactly the option rows pointing at it, each with
      its id, text and flag, in ascending id order; a fill_blank question
      carries an answer iff an answer row points at it, and then the answer
      of the row with the least id. */
  lemma ViewQuestionRows(db: Db, k: nat)
    requires k in db.questions
    ensures var r := ViewQuestion(db, k);
      && r.text == db.questions[k].data.text && r.kind == db.questions[k].data.kind
      && (r.kind == MultipleChoice ==>
            && (forall o :: o in r.options.value <==>
                  && o.id < db.nextId && o.id in db.options && db.options[o.id].parent == k
                  && o == OptionView(o.id, k, db.options[o.id].data.text, db.options[o.id].data.isCorrect))
            && (forall i, j :: 0 <= i < j < |r.options.value| ==> r.options.value[i].id < r.options.value[j].id))
      && (r.kind == FillBlank ==>
            && (r.answer.Some? <==> exists a :: a < db.nextId && a in db.answers && db.answers[a].parent == k)
            && (r.answer.Some? ==> exists a :: FirstAnswer(db, k, a) && r.answer.value == db.answers[a].data))
  {
    var r := ViewQuestion(db, k);
    if r.kind == MultipleChoice {
      var ids := Children(db.options, k, db.nextId);
      var os := r.options.value;
      assert os == OptionViews(db, ids);
      forall o
        ensures o in os <==>
                  && o.id < db.nextId && o.id in db.options && db.options[o.id].parent == k
                  && o == OptionView(o.id, k, db.options[o.id].data.text, db.options[o.id].data.isCorrect)
      {
        if o in os {
          var i := IndexOf(os, o);
          assert ids[i] in ids;
        }
        if o.id < db.nextId && o.id in db.options && db.options[o.id].parent == k {
          var i := IndexOf(ids, o.id);
          assert os[i].id == o.id;
        }
      }
    } else {
      var rows := Children(db.answers, k, db.nextId);
      if exists a :: a < db.nextId && a in db.answers && db.answers[a].parent == k {
        var a :| a < db.nextId && a in db.answers && db.answers[a].parent == k;
        assert a in rows;
      }
      if |rows| > 0 {
        assert rows[0] in rows;
        forall b | b in db.answers && b < db.nextId && db.answers[b].parent == k
          ensures rows[0] <= b
        {
          var j := IndexOf(rows, b);
          assert rows[0] <= rows[j];
        }
        assert FirstAnswer(db, k, rows[0]);
      }
    }
  }

  function ViewQuestions(db: Db, ids: seq<nat>): (r: seq<QuestionView>)
    requires forall i :: 0 <= i < |ids| ==> ids[i] in db.questions
    ensures |r| == |ids|
    ensures forall i :: 0 <= i < |ids| ==> r[i] == ViewQuestion(db, ids[i])
  {
    seq(|ids|, i requires 0 <= i < |ids| => ViewQuestion(db, ids[i]))
  }

  /** `SELECT * FROM questions WHERE quiz_id = $1 ORDER BY id`, each
      question completed with its children. */
  function QuestionsOf(db: Db, quizId: nat): (r: seq<QuestionView>)
  {
    ViewQuestions(db, Children(db.questions, quizId, db.nextId))
  }

  /** The content of an option list: texts and flags, without row ids. */
  function OptionChoices(os: seq<OptionView>): (r: seq<Choice>)
    ensures |r| == |os|
    ensures forall i :: 0 <= i < |os| ==> r[i] == Choice(os[i].text, os[i].isCorrect)
  {
    seq(|os|, i requires 0 <= i < |os| => Choice(os[i].text, os[i].isCorrect))
  }

  /** The content of a question: the view without its row ids. */
  function ContentOf(v: QuestionView): (r: Question)
    ensures r.text == v.text && r.kind == v.kind && r.answer == v.answer
    ensures r.options.Some? <==> v.options.Some?
  {
    Question(v.text, v.kind,
             match v.options
             case None => None
             case Some(os) => Some(OptionChoices(os)),
             v.answer)
  }

  function Contents(vs: seq<QuestionView>): (r: seq<Question>)
    ensures |r| == |vs|
    ensures forall i :: 0 <= i < |vs| ==> r[i] == ContentOf(vs[i])
  {
    seq(|vs|, i requires 0 <= i < |vs| => ContentOf(vs[i]))
  }

  /** The internal outcome of the ownership lookup, before the handler
      collapses the two failures into one 404. */
  datatype Lookup = Absent | Foreign | Owned

  function LookupQuiz(db: Db, caller: nat, id: nat): (r: Lookup)
    ensures r == Owned <==> id in db.quizzes && db.quizzes[id].parent == caller
    ensures r == Foreign <==> id in db.quizzes && db.quizzes[id].parent != caller
  {
    if id !in db.quizzes then Absent
    else if db.quizzes[id].parent == caller then Owned
    else Foreign
  }

  /** `GET /:id`: `None` is the 404 "Quiz not found". */
  function Get(db: Db, caller: nat, id: nat): (r: Option<QuizView>)
    ensures r.Some? <==> LookupQuiz(db, caller, id) == Owned
    ensures r.Some? ==> r.value.quiz == QuizRecord(id, db.quizzes[id].data.title, db.quizzes[id].data.description,
                                                   caller, db.quizzes[id].data.createdAt)
    ensures r.Some? ==> forall i :: 0 <= i < |r.value.questions| ==>
              r.value.questions[i].id in db.questions
              && r.value.questions[i] == ViewQuestion(db, r.value.questions[i].id)
    ensures r.Some? ==> forall i, j :: 0 <= i < j < |r.value.questions| ==>
              r.value.questions[i].id < r.value.questions[j].id
    ensures r.Some? ==> forall i :: 0 <= i < |r.value.questions| ==>
              r.value.questions[i].id in db.questions
              && r.value.questions[i].quizId == id
    ensures r.Some? && Wf(db) ==> forall k :: k in db.questions && db.questions[k].parent == id ==>
              exists i :: 0 <= i < |r.value.questions| && r.value.questions[i].id == k
  {
    if LookupQuiz(db, caller, id) == Owned then
      var ids := Children(db.questions, id, db.nextId);
      var qs := QuestionsOf(db, id);
      assert forall k :: k in db.questions && db.questions[k].parent == id && k < db.nextId ==>
               qs[IndexOf(ids, k)].id == k;
      Some(QuizView(Record(db, id), qs))
    else None
  }

  /** A foreign quiz reads exactly like a missing one: removing it from the
      database does not change the caller's answer. */
  lemma ForeignLooksAbsent(db: Db, caller: nat, id: nat)
    requires LookupQuiz(db, caller, id) == Foreign
    ensures Get(db, caller, id) == None
    ensures Get(db, caller, id) == Get(db.(quizzes := db.quizzes - {id}), caller, id)
  {
  }

  // ---------------------------------------------------------------------
  // GET /

  /** Newest first: `created_at` never increases along the list. */
  predicate NewestFirst(s: seq<QuizRecord>) {
    forall i, j :: 0 <= i < j < |s| ==> s[i].createdAt >= s[j].createdAt
  }

  /** Inserts a record into a newest-first list after every record at least
      as new. */
  function InsertByDate(x: QuizRecord, s: seq<QuizRecord>): (r: seq<QuizRecord>)
    requires NewestFirst(s)
    ensures NewestFirst(r)
    ensures multiset(r) == multiset(s) + multiset{x}
  {
    if s == [] then [x]
    else if s[0].createdAt >= x.createdAt then
      var rest := InsertByDate(x, s[1..]);
      InsertedBelowHead(x, s, rest);
      PrependNewest(s[0], rest);
      assert s == [s[0]] + s[1..];
      [s[0]] + rest
    else
      PrependNewest(x, s);
      [x] + s
  }

  lemma PrependNewest(h: QuizRecord, t: seq<QuizRecord>)
    requires NewestFirst(t)
    requires forall k :: 0 <= k < |t| ==> t[k].createdAt <= h.createdAt
    ensures NewestFirst([h] + t)
  {
    var r := [h] + t;
    forall i, j | 0 <= i < j < |r|
      ensures r[i].createdAt >= r[j].createdAt
    {
      assert r[j] == t[j - 1];
      if i > 0 {
        assert r[i] == t[i - 1];
      }
    }
  }

  lemma InsertedBelowHead(x: QuizRecord, s: seq<QuizRecord>, rest: seq<QuizRecord>)
    requires NewestFirst(s) && s != []
    requires s[0].createdAt >= x.createdAt
    requires multiset(rest) == multiset(s[1..]) + multiset{x}
    ensures forall k :: 0 <= k < |rest| ==> rest[k].createdAt <= s[0].createdAt
  {
    forall k | 0 <= k < |rest|
      ensures rest[k].createdAt <= s[0].createdAt
    {
      assert rest[k] in multiset(rest);
      if rest[k] != x {
        assert rest[k] in multiset(s[1..]);
        var j := IndexOf(s[1..], rest[k]);
        assert s[j + 1] == rest[k];
      }
    }
  }

  /** `ORDER BY created_at DESC`. Ties are left in the input order; the
      database promises no particular order for them. */
  function SortByDate(s: seq<QuizRecord>): (r: seq<QuizRecord>)
    ensures NewestFirst(r)
    ensures multiset(r) == multiset(s)
  {
    if s == [] then []
    else
      assert s == [s[0]] + s[1..];
      InsertByDate(s[0], SortByDate(s[1..]))
  }

  function Records(db: Db, ids: seq<nat>): (r: seq<QuizRecord>)
    requires forall i :: 0 <= i < |ids| ==> ids[i] in db.quizzes
    ensures |r| == |ids|
    ensures forall i :: 0 <= i < |ids| ==> r[i] == Record(db, ids[i])
  {
    seq(|ids|, i requires 0 <= i < |ids| => Record(db, ids[i]))
  }

  /** `GET /`: `SELECT * FROM quizzes WHERE teacher_id = $1 ORDER BY
      created_at DESC`. */
  function List(db: Db, caller: nat): (r: seq<QuizRecord>)
    requires Wf(db)
    ensures NewestFirst(r)
    ensures forall x :: x in r <==> x.id in db.quizzes && db.quizzes[x.id].parent == caller
                                    && x == Record(db, x.id)
    ensures forall i, j :: 0 <= i < j < |r| ==> r[i].id != r[j].id
  {
    var ids := Children(db.quizzes, caller, db.nextId);
    var recs := Records(db, ids);
    var r := SortByDate(recs);
    OwnedRecords(db, caller, ids, recs);
    SameElements(recs, r);
    DistinctIds(db, ids, recs, r);
    r
  }

  /** The records of the caller's quiz ids are exactly the caller's quizzes. */
  lemma OwnedRecords(db: Db, caller: nat, ids: seq<nat>, recs: seq<QuizRecord>)
    requires Wf(db)
    requires ids == Children(db.quizzes, caller, db.nextId)
    requires recs == Records(db, ids)
    ensures forall x :: x in recs <==> x.id in db.quizzes && db.quizzes[x.id].parent == caller
                                       && x == Record(db, x.id)
  {
    forall x
      ensures x in recs <==> x.id in db.quizzes && db.quizzes[x.id].parent == caller
                             && x == Record(db, x.id)
    {
      if x.id in db.quizzes && db.quizzes[x.id].parent == caller && x == Record(db, x.id) {
        assert recs[IndexOf(ids, x.id)] == x;
      }
    }
  }

  /** Sequences with the same multiset have the same elements. */
  lemma SameElements<T>(a: seq<T>, b: seq<T>)
    requires multiset(b) == multiset(a)
    ensures forall x :: x in b <==> x in a
  {
    forall x ensures x in b <==> x in a {
      assert x in b <==> x in multiset(b);
      assert x in a <==> x in multiset(a);
    }
  }

  /** Records of distinct ids stay distinct under any permutation. */
  lemma DistinctIds(db: Db, ids: seq<nat>, recs: seq<QuizRecord>, r: seq<QuizRecord>)
    requires Increasing(ids)
    requires forall i :: 0 <= i < |ids| ==> ids[i] in db.quizzes
    requires recs == Records(db, ids)
    requires multiset(r) == multiset(recs)
    ensures forall i, j :: 0 <= i < j < |r| ==> r[i].id != r[j].id
  {
    forall i, j | 0 <= i < j < |r|
      ensures r[i].id != r[j].id
    {
      assert r[i] in multiset(recs) && r[j] in multiset(recs);
      var a := IndexOf(recs, r[i]);
      var b := IndexOf(recs, r[j]);
      MultisetOfIncreasingRecords(db, ids, recs, a);
      assert r == r[..i] + [r[i]] + r[i+1..j] + [r[j]] + r[j+1..];
      assert multiset(r)[r[i]] >= 1 + (if r[j] == r[i] then 1 else 0);
      assert r[i].id == ids[a] && r[j].id == ids[b];
    }
  }

  lemma MultisetOfIncreasingRecords(db: Db, ids: seq<nat>, recs: seq<QuizRecord>, a: nat)
    requires Increasing(ids)
    requires forall i :: 0 <= i < |ids| ==> ids[i] in db.quizzes
    requires recs == Records(db, ids)
    requires a < |recs|
    ensures multiset(recs)[recs[a]] == 1
  {
    assert recs == recs[..a] + [recs[a]] + recs[a+1..];
    assert recs[a] !in recs[..a];
    assert recs[a] !in recs[a+1..];
  }
}
