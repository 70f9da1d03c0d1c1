/** The four quiz relations as immutable maps from id to row, plus the
    fresh-id counter the database hands ids out from. Every relation's row
    has a parent column: `teacher_id` for quizzes, `quiz_id` for questions,
    `question_id` for options and fill-blank answers. One counter serves all
    four relations, so a larger id always means a later insert and
    "ORDER BY id" is insertion order. */
module Store {
  import opened Base
  import opened QuizSchema

  datatype Row<T> = Row(parent: nat, data: T)

  /** A `quizzes` row; its parent is the owning teacher. */
  datatype QuizData = QuizData(title: string, description: string, createdAt: nat)

  /** A `questions` row; its parent is the quiz. */
  datatype QuestionData = QuestionData(text: string, kind: Kind)

  /** Option rows carry a `Choice`; fill-blank answer rows carry a string. */
  datatype Db = Db(quizzes: map<nat, Row<QuizData>>,
                   questions: map<nat, Row<QuestionData>>,
                   options: map<nat, Row<Choice>>,
                   answers: map<nat, Row<string>>,
                   nextId: nat)

  /** The freshly initialised database. */
  const EmptyDb: Db := Db(map[], map[], map[], map[], 0)

  /** Every id in the relation was handed out by the counter. */
  predicate Below<T>(m: map<nat, Row<T>>, n: nat) {
    forall k :: k in m ==> k < n
  }

  /** The ids below `n` whose parent is `p`, ascending: the rows
      `SELECT ... WHERE parent = p ORDER BY id` returns. */
  function Children<T>(m: map<nat, Row<T>>, p: nat, n: nat): (r: seq<nat>)
    ensures forall k :: k in r <==> k < n && k in m && m[k].parent == p
    ensures Increasing(r)
  {
    if n == 0 then []
    else
      var prefix := Children(m, p, n - 1);
      if n - 1 in m && m[n - 1].parent == p then
        IncreasingAppend(prefix, n - 1);
        prefix + [n - 1]
      else prefix
  }

  /** Well-formedness: ids come from the counter, every child row points at
      an existing parent row, and a question's children are determined by
      its type (options only under multiple_choice, answers only under
      fill_blank). Foreign keys are the database's; the type rule is what
      every write path keeps. */
  predicate Wf(db: Db) {
    && Below(db.quizzes, db.nextId)
    && Below(db.questions, db.nextId)
    && Below(db.options, db.nextId)
    && Below(db.answers, db.nextId)
    && (forall k :: k in db.questions ==> db.questions[k].parent in db.quizzes)
    && (forall k :: k in db.options ==>
          db.options[k].parent in db.questions
          && db.questions[db.options[k].parent].data.kind == MultipleChoice)
    && (forall k :: k in db.answers ==>
          db.answers[k].parent in db.questions
          && db.questions[db.answers[k].parent].data.kind == FillBlank)
  }

  lemma EmptyDbWf()
    ensures Wf(EmptyDb)
  {
  }

  // ---------------------------------------------------------------------
  // Single statements. Each INSERT takes the counter's next id.

  /** `INSERT INTO quizzes (title, description, teacher_id)`; `created_at`
      is the insert time, supplied by the caller. */
  function AddQuizRow(db: Db, teacher: nat, d: QuizData): (r: Db)
    ensures r.quizzes == db.quizzes[db.nextId := Row(teacher, d)]
    ensures r.nextId == db.nextId + 1
    ensures r.questions == db.questions && r.options == db.options && r.answers == db.answers
  {
    db.(quizzes := db.quizzes[db.nextId := Row(teacher, d)], nextId := db.nextId + 1)
  }

  /** `INSERT INTO questions (quiz_id, text, type)`. */
  function AddQuestionRow(db: Db, quizId: nat, d: QuestionData): (r: Db)
    ensures r.questions == db.questions[db.nextId := Row(quizId, d)]
    ensures r.nextId == db.nextId + 1
    ensures r.quizzes == db.quizzes && r.options == db.options && r.answers == db.answers
  {
    db.(questions := db.questions[db.nextId := Row(quizId, d)], nextId := db.nextId + 1)
  }

  /** `INSERT INTO options (question_id, text, is_correct)`. */
  function AddOptionRow(db: Db, questionId: nat, c: Choice): (r: Db)
    ensures r.options == db.options[db.nextId := Row(questionId, c)]
    ensures r.nextId == db.nextId + 1
    ensures r.quizzes == db.quizzes && r.questions == db.questions && r.answers == db.answers
  {
    db.(options := db.options[db.nextId := Row(questionId, c)], nextId := db.nextId + 1)
  }

  /** `INSERT INTO fill_blank_answers (question_id, answer)`. */
  function AddAnswerRow(db: Db, questionId: nat, a: string): (r: Db)
    ensures r.answers == db.answers[db.nextId := Row(questionId, a)]
    ensures r.nextId == db.nextId + 1
    ensures r.quizzes == db.quizzes && r.questions == db.questions && r.options == db.options
  {
    db.(answers := db.answers[db.nextId := Row(questionId, a)], nextId := db.nextId + 1)
  }

  /** `UPDATE quizzes SET title, description WHERE id`: owner and creation
      time stay. */
  function SetQuizText(db: Db, id: nat, title: string, description: string): (r: Db)
    requires id in db.quizzes
    ensures r.quizzes.Keys == db.quizzes.Keys
    ensures r.quizzes[id].parent == db.quizzes[id].parent
    ensures r.quizzes[id].data == QuizData(title, description, db.quizzes[id].data.createdAt)
    ensures forall k :: k in db.quizzes && k != id ==> r.quizzes[k] == db.quizzes[k]
    ensures r.questions == db.questions && r.options == db.options
    ensures r.answers == db.answers && r.nextId == db.nextId
  {
    var row := db.quizzes[id];
    db.(quizzes := db.quizzes[id := Row(row.parent, QuizData(title, description, row.data.createdAt))])
  }

  /** `DELETE FROM questions WHERE quiz_id = id`, with the foreign-key
      cascade removing those questions' options and answers. */
  function DeleteQuestionsOf(db: Db, quizId: nat): (r: Db)
    ensures forall k :: k in r.questions <==> k in db.questions && db.questions[k].parent != quizId
    ensures forall k :: k in r.questions ==> r.questions[k] == db.questions[k]
    ensures forall k :: k in r.options <==>
              k in db.options && !(db.options[k].parent in db.questions
                                   && db.questions[db.options[k].parent].parent == quizId)
    ensures forall k :: k in r.options ==> r.options[k] == db.options[k]
    ensures forall k :: k in r.answers <==>
              k in db.answers && !(db.answers[k].parent in db.questions
                                   && db.questions[db.answers[k].parent].parent == quizId)
    ensures forall k :: k in r.answers ==> r.answers[k] == db.answers[k]
    ensures r.quizzes == db.quizzes && r.nextId == db.nextId
  {
    var gone := set k | k in db.questions && db.questions[k].parent == quizId;
    db.(questions := map k | k in db.questions && k !in gone :: db.questions[k],
        options := map k | k in db.options && db.options[k].parent !in gone :: db.options[k],
        answers := map k | k in db.answers && db.answers[k].parent !in gone :: db.answers[k])
  }

  /** `DELETE FROM quizzes WHERE id`, cascading to the quiz's questions and
      through them to their options and answers. */
  function DeleteQuizRow(db: Db, id: nat): (r: Db)
    ensures r.quizzes == db.quizzes - {id}
    ensures forall k :: k in r.questions <==> k in db.questions && db.questions[k].parent != id
    ensures forall k :: k in r.questions ==> r.questions[k] == db.questions[k]
    ensures forall k :: k in r.options <==>
              k in db.options && !(db.options[k].parent in db.questions
                                   && db.questions[db.options[k].parent].parent == id)
    ensures forall k :: k in r.options ==> r.options[k] == db.options[k]
    ensures forall k :: k in r.answers <==>
              k in db.answers && !(db.answers[k].parent in db.questions
                                   && db.questions[db.answers[k].parent].parent == id)
    ensures forall k :: k in r.answers ==> r.answers[k] == db.answers[k]
    ensures r.nextId == db.nextId
  {
    var d := DeleteQuestionsOf(db, id);
    d.(quizzes := d.quizzes - {id})
  }

  // ---------------------------------------------------------------------
  // How the ordered child lists react to the statements.

  /** Two relations that agree on which ids below their bounds are children
      of `p` list the same children. */
  lemma ChildrenFrame<T, U>(m: map<nat, Row<T>>, n: nat, m': map<nat, Row<U>>, n': nat, p: nat)
    requires forall k :: (k < n && k in m && m[k].parent == p) <==> (k < n' && k in m' && m'[k].parent == p)
    ensures Children(m, p, n) == Children(m', p, n')
  {
    IncreasingUnique(Children(m, p, n), Children(m', p, n'));
  }

  /** Inserting a row at the fresh id appends that id to its parent's list
      and leaves every other parent's list as it was. */
  lemma ChildrenAdd<T>(m: map<nat, Row<T>>, n: nat, row: Row<T>, p: nat)
    requires Below(m, n)
    ensures Children(m[n := row], p, n + 1)
            == Children(m, p, n) + (if row.parent == p then [n] else [])
  {
    var a := Children(m[n := row], p, n + 1);
    var b := Children(m, p, n) + (if row.parent == p then [n] else []);
    if row.parent == p {
      IncreasingAppend(Children(m, p, n), n);
    }
    IncreasingUnique(a, b);
  }

  /** Raising the bound past every key changes no child list. */
  lemma ChildrenBump<T>(m: map<nat, Row<T>>, n: nat)
    requires Below(m, n)
    ensures forall x :: Children(m, x, n + 1) == Children(m, x, n)
  {
    forall x
      ensures Children(m, x, n + 1) == Children(m, x, n)
    {
      ChildrenFrame(m, n + 1, m, n, x);
    }
  }

  /** A row added at the fresh id joins its parent's list, at the end, and
      no other list. */
  lemma ChildrenAddAll<T>(m: map<nat, Row<T>>, n: nat, row: Row<T>)
    requires Below(m, n)
    ensures forall x :: Children(m[n := row], x, n + 1)
                        == Children(m, x, n) + (if row.parent == x then [n] else [])
  {
    forall x
      ensures Children(m[n := row], x, n + 1) == Children(m, x, n) + (if row.parent == x then [n] else [])
    {
      ChildrenAdd(m, n, row, x);
    }
  }

  /** A parent nothing points at has no children. */
  lemma ChildrenNone<T>(m: map<nat, Row<T>>, n: nat, p: nat)
    requires forall k :: k in m ==> m[k].parent != p
    ensures Children(m, p, n) == []
  {
    IncreasingUnique(Children(m, p, n), []);
  }

  // ---------------------------------------------------------------------
  // Every statement the write handlers issue keeps the database well formed.

  lemma AddQuizRowWf(db: Db, teacher: nat, d: QuizData)
    requires Wf(db)
    ensures Wf(AddQuizRow(db, teacher, d))
  {
  }

  lemma AddQuestionRowWf(db: Db, quizId: nat, d: QuestionData)
    requires Wf(db) && quizId in db.quizzes
    ensures Wf(AddQuestionRow(db, quizId, d))
  {
  }

  lemma AddOptionRowWf(db: Db, questionId: nat, c: Choice)
    requires Wf(db) && questionId in db.questions
    requires db.questions[questionId].data.kind == MultipleChoice
    ensures Wf(AddOptionRow(db, questionId, c))
  {
  }

  lemma AddAnswerRowWf(db: Db, questionId: nat, a: string)
    requires Wf(db) && questionId in db.questions
    requires db.questions[questionId].data.kind == FillBlank
    ensures Wf(AddAnswerRow(db, questionId, a))
  {
  }

  lemma SetQuizTextWf(db: Db, id: nat, title: string, description: string)
    requires Wf(db) && id in db.quizzes
    ensures Wf(SetQuizText(db, id, title, description))
  {
  }

  lemma DeleteQuestionsOfWf(db: Db, quizId: nat)
    requires Wf(db)
    ensures Wf(DeleteQuestionsOf(db, quizId))
  {
  }

  lemma DeleteQuizRowWf(db: Db, id: nat)
    requires Wf(db)
    ensures Wf(DeleteQuizRow(db, id))
  {
  }
}
