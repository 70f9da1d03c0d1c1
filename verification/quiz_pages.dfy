// The two quiz pages around the shared builder: the create page and the
// edit page, which loads a quiz, turns the server's rows into client
// questions, lets questions be removed, and submits the form as an update.

module QuizPages {
  import opened Base
  import opened QuizSchema
  import opened QuizRead
  import opened QuestionBuilder

  /** A page's state: whether the token check passed, whether a request is
      in flight, the title and description fields, and the builder. */
  datatype Page = Page(authenticated: bool, submitting: bool, title: string, description: string, form: Form)

  /** `{ ...formData, questions }`, the body both pages send. */
  function FormBody(p: Page): (b: QuizBody)
    ensures b.title == p.title && b.description == p.description
    ensures |b.questions| == |p.form.questions|
    ensures forall i :: 0 <= i < |b.questions| ==> b.questions[i] == ToBody(p.form.questions[i])
  {
    QuizToBody(Quiz(p.title, p.description, p.form.questions))
  }

  /** The browser's constraint check on the form: the title and
      description inputs are `required`, which only the empty string
      fails, so with either empty the form's submit never reaches
      `handleSubmit`. */
  predicate FieldsFilled(p: Page) {
    p.title != [] && p.description != []
  }

  /** A submit of the create page's form: the browser holds it back while
      a required field is empty, and `handleSubmit` ignores it on an
      unauthenticated page. */
  function CreateSubmit(p: Page): (r: (Page, Option<QuizBody>))
    ensures r.1.None? <==> p.title == [] || p.description == [] || !p.authenticated
    ensures r.1.None? ==> r.0 == p
    ensures r.1.Some? ==> r.0 == p.(submitting := true) && r.1.value == FormBody(p)
  {
    if !FieldsFilled(p) || !p.authenticated then (p, None)
    else (p.(submitting := true), Some(FormBody(p)))
  }

  /** A submit of the edit page's form: the browser holds it back while a
      required field is empty, and `handleSubmit` ignores it on an
      unauthenticated page or one with a request in flight. */
  function EditSubmit(p: Page): (r: (Page, Option<QuizBody>))
    ensures r.1.None? <==> p.title == [] || p.description == [] || !p.authenticated || p.submitting
    ensures r.1.None? ==> r.0 == p
    ensures r.1.Some? ==> r.0 == p.(submitting := true) && r.1.value == FormBody(p)
  {
    if !FieldsFilled(p) || !p.authenticated || p.submitting then (p, None)
    else (p.(submitting := true), Some(FormBody(p)))
  }

  /** Whenever the submit button is enabled the two guards agree; they
      differ only for a submit raised while one is in flight, which the
      disabled button keeps from the create page. */
  lemma SubmitGuardsAgreeWhenEnabled(p: Page)
    ensures SubmitEnabled(p.form, p.submitting) ==> CreateSubmit(p) == EditSubmit(p)
    ensures FieldsFilled(p) && p.authenticated && p.submitting ==> CreateSubmit(p).1.Some? && EditSubmit(p).1.None?
  {
  }

  // ---------------------------------------------------------------------
  // Loading a quiz for editing.

  /** The map over the loaded questions: text, type and answer are kept;
      each option becomes `{text, isCorrect: is_correct}`; absent options
      stay absent. */
  function Sanitize(vs: seq<QuestionView>): (r: seq<Question>)
    ensures |r| == |vs|
    ensures forall i :: 0 <= i < |vs| ==>
              && r[i].text == vs[i].text && r[i].kind == vs[i].kind && r[i].answer == vs[i].answer
              && (r[i].options.Some? <==> vs[i].options.Some?)
              && (r[i].options.Some? ==> |r[i].options.value| == |vs[i].options.value|)
    ensures forall i, j :: 0 <= i < |vs| && vs[i].options.Some? && 0 <= j < |vs[i].options.value| ==>
              r[i].options.value[j] == Choice(vs[i].options.value[j].text, vs[i].options.value[j].isCorrect)
    decreases |vs|
  {
    if vs == [] then []
    else
      var v := vs[0];
      [Question(v.text, v.kind,
                match v.options
                case None => None
                case Some(os) => Some(seq(|os|, j requires 0 <= j < |os| => Choice(os[j].text, os[j].isCorrect))),
                v.answer)]
      + Sanitize(vs[1..])
  }

  /** The client's map is the server view with its ids dropped. */
  lemma {:induction false} SanitizeIsContents(vs: seq<QuestionView>)
    ensures Sanitize(vs) == Contents(vs)
    decreases |vs|
  {
    if vs != [] {
      SanitizeIsContents(vs[1..]);
      assert Sanitize(vs)[0] == ContentOf(vs[0]);
    }
  }

  /** What the page holds once `GET /:id` answered with `view`. */
  function Loaded(p: Page, view: QuizView): (r: Page)
    ensures r.title == view.quiz.title && r.description == view.quiz.description
    ensures r.form.questions == Sanitize(view.questions) && r.form.current == p.form.current
  {
    p.(title := view.quiz.title, description := view.quiz.description,
       form := p.form.(questions := Sanitize(view.questions)))
  }

  /** `removeQuestion(index)`: `questions.filter((_, i) => i !== index)`. */
  function RemoveQuestion(qs: seq<Question>, index: int): (r: seq<Question>)
    ensures 0 <= index < |qs| ==> r == qs[..index] + qs[index + 1..]
    ensures !(0 <= index < |qs|) ==> r == qs
    decreases |qs|
  {
    if qs == [] then []
    else (if index == 0 then [] else [qs[0]]) + RemoveQuestion(qs[1..], index - 1)
  }

  /** Removing a question keeps every remaining one as it was, so it keeps
      the builder's invariant. */
  lemma RemoveQuestionKeepsInv(f: Form, index: int)
    requires Inv(f)
    ensures Inv(f.(questions := RemoveQuestion(f.questions, index)))
  {
    var r := RemoveQuestion(f.questions, index);
    forall i | 0 <= i < |r|
      ensures Acceptable(r[i]) && CurrentOk(r[i])
    {
      if 0 <= index < |f.questions| {
        if i < index {
          assert r[i] == f.questions[i];
        } else {
          assert r[i] == f.questions[i + 1];
        }
      }
    }
  }

  /** The Update button: `disabled={questions.length === 0 || isSubmitting}`,
      the same rule as the create page's. */
  predicate UpdateEnabled(p: Page) {
    SubmitEnabled(p.form, p.submitting)
  }

  /** Removing the last question disables the Update button. */
  lemma RemovingLastQuestionDisablesUpdate(p: Page)
    requires |p.form.questions| == 1
    ensures !UpdateEnabled(p.(form := p.form.(questions := RemoveQuestion(p.form.questions, 0))))
  {
  }
}
