// What the pages send against what the server accepts: the builder's
// guards are not the server's schema, and a quiz loaded for editing and
// sent back unchanged is stored unchanged.

module CrossCheck {
  import opened Base
  import opened JsString
  import opened QuizSchema
  import opened Store
  import opened QuizRead
  import opened QuizWrite
  import opened QuestionBuilder
  import opened QuizPages

  lemma NonBlankIsNonEmpty(s: string)
    requires Trim(s) != []
    ensures |s| >= 1
  {
    TrimEmptyIffBlank(s);
  }

  /** Every option of a question has text. */
  predicate OptionTextsFilled(q: Question) {
    q.options.Some? ==> forall i :: 0 <= i < |q.options.value| ==> q.options.value[i].text != []
  }

  /** A question the builder accepted passes the server's question schema
      exactly when none of its options is blank: the builder checks the
      text, the option count and the correct flag, but never an option's
      text. */
  lemma AcceptedQuestionValidIff(q: Question)
    requires Acceptable(q) && CurrentOk(q)
    ensures ParseQuestion(ToBody(q)).Some? <==> OptionTextsFilled(q)
  {
    NonBlankIsNonEmpty(q.text);
    ParseToBody(q);
  }

  /** For a form the builder produced, the server accepts the submitted
      body exactly when title and description are filled and no added
      question has a blank option. */
  lemma FormBodyValidIff(p: Page)
    requires Inv(p.form)
    ensures ValidQuizBody(FormBody(p)) <==>
              |p.title| >= 1 && |p.description| >= 1
              && forall i :: 0 <= i < |p.form.questions| ==> OptionTextsFilled(p.form.questions[i])
  {
    var b := FormBody(p);
    forall i | 0 <= i < |p.form.questions|
      ensures ValidQuestionBody(b.questions[i]) <==> OptionTextsFilled(p.form.questions[i])
    {
      AcceptedQuestionValidIff(p.form.questions[i]);
    }
  }

  /** A body either page actually sends, from a form the builder
      produced, passes the server's schema exactly when no added question
      has a blank option: the required fields have already ruled out an
      empty title or description. */
  lemma {:induction false} SentBodyValidIff(p: Page)
    requires Inv(p.form)
    ensures CreateSubmit(p).1.Some? ==>
              (ValidQuizBody(CreateSubmit(p).1.value) <==>
               forall i :: 0 <= i < |p.form.questions| ==> OptionTextsFilled(p.form.questions[i]))
    ensures EditSubmit(p).1.Some? ==>
              (ValidQuizBody(EditSubmit(p).1.value) <==>
               forall i :: 0 <= i < |p.form.questions| ==> OptionTextsFilled(p.form.questions[i]))
  {
    FormBodyValidIff(p);
  }

  /** A question whose first option is marked correct but left blank. */
  function BlankOptionQuestion(text: string): Question {
    Question(text, MultipleChoice, Some([Choice("", true), BlankChoice]), None)
  }

  /** The session that builds it: type the text, mark the first (still
      blank) option correct, add the question. */
  function BlankOptionSession(text: string): seq<Event> {
    [TextEdited(text), OptionEdited(0, "", true), QuestionAdded]
  }

  /** The builder takes the question whenever its text is not blank. */
  lemma BuilderTakesBlankOption(text: string)
    requires !IsBlank(text)
    ensures Run(Initial, BlankOptionSession(text)) == Some(Form([BlankOptionQuestion(text)], Fresh()))
  {
    var es := BlankOptionSession(text);
    var q0 := Question(text, MultipleChoice, Some([BlankChoice, BlankChoice]), None);
    var q := BlankOptionQuestion(text);
    var f1 := Form([], q0);
    assert Step(Initial, es[0]) == f1;
    assert Step(f1, es[1]).current == q by {
      assert [BlankChoice, BlankChoice][0 := Choice("", true)] == [Choice("", true), BlankChoice];
    }
    assert Acceptable(q) by {
      assert q.options.value[0].isCorrect;
      TrimEmptyIffBlank(q.text);
    }
    var f3 := Form([q], Fresh());
    assert Step(Form([], q), QuestionAdded) == f3 by {
      assert [] + [q] == [q];
    }
    assert Run(Initial, es) == Run(f1, es[1..]);
    assert Run(f1, es[1..]) == Run(Form([], q), es[2..]);
    assert es[3..] == [];
    assert Run(Form([], q), es[2..]) == Run(f3, []);
  }

  /** The server refuses the body holding that question and stores
      nothing, although the page's submit is enabled and, with title and
      description filled in, the page sends it. */
  lemma ServerRefusesBlankOption(db: Db, caller: nat, text: string, title: string, description: string,
                                 now: nat, failAt: Option<nat>)
    requires title != [] && description != []
    ensures var p := Page(true, false, title, description, Form([BlankOptionQuestion(text)], Fresh()));
      && SubmitEnabled(p.form, p.submitting)
      && CreateSubmit(p).1 == Some(FormBody(p))
      && Create(db, caller, FormBody(p), now, failAt) == (InvalidRequest, db)
  {
    var p := Page(true, false, title, description, Form([BlankOptionQuestion(text)], Fresh()));
    assert !ValidChoice(FormBody(p).questions[0].options.value[0]);
  }

  /** A concrete instance of the gap. */
  lemma BlankOptionGap(db: Db, caller: nat, now: nat, failAt: Option<nat>)
    ensures Run(Initial, BlankOptionSession("Capital of France?")).Some?
    ensures var f := Run(Initial, BlankOptionSession("Capital of France?")).value;
      Create(db, caller, FormBody(Page(true, false, "Geography", "Capitals", f)), now, failAt) == (InvalidRequest, db)
  {
    var t := "Capital of France?";
    assert !IsWhiteSpace(t[0]);
    BuilderTakesBlankOption(t);
    ServerRefusesBlankOption(db, caller, t, "Geography", "Capitals", now, failAt);
  }

  // ---------------------------------------------------------------------
  // Editing without changes.

  /** The stored form of a quiz's question list is a fixed point of the
      write path's normalisation. */
  lemma StoredListIsNormal(db: Db, quizId: nat)
    requires AnswersFilled(db)
    ensures NormalizeAll(Contents(QuestionsOf(db, quizId))) == Contents(QuestionsOf(db, quizId))
  {
    var ids := Children(db.questions, quizId, db.nextId);
    var cs := Contents(QuestionsOf(db, quizId));
    forall i | 0 <= i < |cs|
      ensures Normalize(cs[i]) == cs[i]
    {
      StoredFormIsNormal(db, ids[i]);
    }
  }

  /** Loading a quiz into the edit page and sending it back unchanged
      stores the same questions again (under new ids), provided the server
      accepts the body. */
  lemma EditUnchangedKeepsQuestions(db: Db, caller: nat, id: nat, p: Page, failAt: Option<nat>)
    requires Wf(db) && AnswersFilled(db)
    requires Get(db, caller, id).Some?
    ensures var before := Get(db, caller, id).value;
      var body := FormBody(Loaded(p, before));
      var (reply, d) := Update(db, caller, id, body, failAt);
      reply == Updated ==>
        && Get(d, caller, id).Some?
        && Contents(Get(d, caller, id).value.questions) == Contents(before.questions)
  {
    var before := Get(db, caller, id).value;
    var page := Loaded(p, before);
    var body := FormBody(page);
    var (reply, d) := Update(db, caller, id, body, failAt);
    if reply == Updated {
      var qs := Sanitize(before.questions);
      SanitizeIsContents(before.questions);
      assert ParseQuiz(body).value.questions == qs by {
        var quiz := Quiz(page.title, page.description, qs);
        assert body == QuizToBody(quiz);
        forall i | 0 <= i < |qs|
          ensures ValidQuestion(qs[i])
        {
          assert ValidQuestionBody(body.questions[i]);
          ParseToBody(qs[i]);
        }
        ParseQuizToBody(quiz);
      }
      StoredListIsNormal(db, id);
      UpdateThenGet(db, caller, id, body, failAt);
    }
  }
}
