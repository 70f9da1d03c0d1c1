// The question builder both quiz pages share: the question being composed,
// the list of questions added so far, and the handlers that move between
// them. The two pages carry identical copies of `addQuestion`, `addOption`,
// `updateOption` and the type switch; they are modelled once here.

module QuestionBuilder {
  import opened Base
  import opened JsString
  import opened QuizSchema

  /** `{ text: '', isCorrect: false }`. */
  const BlankChoice := Choice("", false)

  /** The question the form starts with and returns to after each add: an
      empty multiple_choice question with two blank options. */
  function Fresh(): (q: Question)
    ensures q.kind == MultipleChoice && q.text == [] && q.answer.None?
    ensures q.options == Some([BlankChoice, BlankChoice])
  {
    Question("", MultipleChoice, Some([BlankChoice, BlankChoice]), None)
  }

  /** The builder state: `questions` and `currentQuestion`. */
  datatype Form = Form(questions: seq<Question>, current: Question)

  const Initial := Form([], Fresh())

  /** `currentQuestion.options?.some(opt => opt.isCorrect)`: absent options
      count as no correct option. */
  predicate HasCorrect(q: Question) {
    q.options.Some? && exists i :: 0 <= i < |q.options.value| && q.options.value[i].isCorrect
  }

  /** The guards of `addQuestion`: text that is not blank after trimming,
      and for multiple_choice at least one option marked correct. */
  predicate Acceptable(q: Question) {
    Trim(q.text) != [] && (q.kind == MultipleChoice ==> HasCorrect(q))
  }

  /** `addQuestion`. */
  function AddQuestion(f: Form): (r: Form)
    ensures IsBlank(f.current.text) ==> r == f
    ensures f.current.kind == MultipleChoice && !HasCorrect(f.current) ==> r == f
    ensures !IsBlank(f.current.text) && (f.current.kind == MultipleChoice ==> HasCorrect(f.current)) ==>
              r.questions == f.questions + [f.current] && r.current == Fresh()
  {
    TrimEmptyIffBlank(f.current.text);
    if Acceptable(f.current) then Form(f.questions + [f.current], Fresh()) else f
  }

  /** `addOption`: a blank option at the end, unless options are absent or
      there are already four. */
  function AddOption(q: Question): (r: Question)
    ensures q.options.None? || |q.options.value| >= MaxOptions ==> r == q
    ensures q.options.Some? && |q.options.value| < MaxOptions ==>
              r == q.(options := Some(q.options.value + [BlankChoice]))
    ensures r.options.Some? && q.options.Some? && |q.options.value| <= MaxOptions ==>
              |r.options.value| <= MaxOptions
  {
    if q.options.None? || |q.options.value| >= MaxOptions then q
    else q.(options := Some(q.options.value + [BlankChoice]))
  }

  /** `updateOption(index, text, isCorrect)`: option `index` becomes
      `{text, isCorrect}`; nothing happens when options are absent. The
      page only calls it with the index of a rendered option. */
  function UpdateOption(q: Question, index: nat, text: string, isCorrect: bool): (r: Question)
    requires q.options.Some? ==> index < |q.options.value|
    ensures q.options.None? ==> r == q
    ensures q.options.Some? ==>
              && r.options.Some?
              && |r.options.value| == |q.options.value|
              && r.options.value[index] == Choice(text, isCorrect)
              && (forall j :: 0 <= j < |q.options.value| && j != index ==>
                    r.options.value[j] == q.options.value[j])
    ensures r.text == q.text && r.kind == q.kind && r.answer == q.answer
  {
    if q.options.None? then q
    else q.(options := Some(q.options.value[index := Choice(text, isCorrect)]))
  }

  /** The type select: a new question of the chosen type with empty text,
      two blank options for multiple_choice or an empty answer for
      fill_blank. */
  function ChangeType(kind: Kind): (r: Question)
    ensures r.kind == kind && r.text == []
    ensures kind == MultipleChoice ==> r == Fresh()
    ensures kind == FillBlank ==> r.options.None? && r.answer == Some([])
  {
    match kind
    case MultipleChoice => Question("", MultipleChoice, Some([BlankChoice, BlankChoice]), None)
    case FillBlank => Question("", FillBlank, None, Some(""))
  }

  /** The submit button: `disabled={questions.length === 0 || isSubmitting}`. */
  predicate SubmitEnabled(f: Form, submitting: bool) {
    |f.questions| > 0 && !submitting
  }

  // ---------------------------------------------------------------------
  // The builder as a state machine.

  datatype Event =
    | TypeChanged(kind: Kind)
    | TextEdited(text: string)
    | AnswerEdited(answer: string)
    | OptionAdded
    | OptionEdited(index: nat, text: string, isCorrect: bool)
    | QuestionAdded

  /** The events the page can raise: option edits only come from rendered
      options. */
  predicate Enabled(f: Form, e: Event) {
    e.OptionEdited? ==> f.current.options.Some? && e.index < |f.current.options.value|
  }

  function Step(f: Form, e: Event): (r: Form)
    requires Enabled(f, e)
    ensures !e.QuestionAdded? ==> r.questions == f.questions
  {
    match e
    case TypeChanged(k) => f.(current := ChangeType(k))
    case TextEdited(t) => f.(current := f.current.(text := t))
    case AnswerEdited(a) => f.(current := f.current.(answer := Some(a)))
    case OptionAdded => f.(current := AddOption(f.current))
    case OptionEdited(i, t, c) => f.(current := UpdateOption(f.current, i, t, c))
    case QuestionAdded => AddQuestion(f)
  }

  /** A question being composed: multiple_choice with two to four options,
      fill_blank without options. */
  predicate CurrentOk(q: Question) {
    && (q.kind == MultipleChoice ==> q.options.Some? && 2 <= |q.options.value| <= MaxOptions)
    && (q.kind == FillBlank ==> q.options.None?)
  }

  /** Every added question passed the `addQuestion` guards. */
  predicate AllAcceptable(qs: seq<Question>) {
    forall i :: 0 <= i < |qs| ==> Acceptable(qs[i]) && CurrentOk(qs[i])
  }

  predicate Inv(f: Form) {
    CurrentOk(f.current) && AllAcceptable(f.questions)
  }

  lemma InitialInv()
    ensures Inv(Initial)
  {
  }

  /** Adding a question keeps the invariant: the added question is the
      current one, which passed the guards, and the new current one is
      fresh. */
  lemma AddQuestionKeepsInv(f: Form)
    requires Inv(f)
    ensures Inv(AddQuestion(f))
  {
    if Acceptable(f.current) {
      var r := AddQuestion(f);
      assert r.questions == f.questions + [f.current];
      forall i | 0 <= i < |r.questions|
        ensures Acceptable(r.questions[i]) && CurrentOk(r.questions[i])
      {
        if i < |f.questions| {
          assert r.questions[i] == f.questions[i];
        }
      }
    }
  }

  /** Every event keeps the builder's invariant. */
  lemma StepKeepsInv(f: Form, e: Event)
    requires Inv(f) && Enabled(f, e)
    ensures Inv(Step(f, e))
  {
    match e
    case QuestionAdded => AddQuestionKeepsInv(f);
    case OptionAdded => assert CurrentOk(AddOption(f.current));
    case OptionEdited(i, t, c) => assert CurrentOk(UpdateOption(f.current, i, t, c));
    case TypeChanged(k) => assert CurrentOk(ChangeType(k));
    case TextEdited(t) =>
    case AnswerEdited(a) =>
  }

  /** The events of a session, in order. */
  function Run(f: Form, es: seq<Event>): (r: Option<Form>)
    decreases |es|
  {
    if es == [] then Some(f)
    else if !Enabled(f, es[0]) then None
    else Run(Step(f, es[0]), es[1..])
  }

  /** Any session from the initial form keeps the invariant: a
      multiple_choice question under construction has two to four options,
      and every added question has non-blank text and, if multiple_choice,
      a correct option. */
  lemma {:induction false} RunKeepsInv(f: Form, es: seq<Event>)
    requires Inv(f)
    ensures Run(f, es).Some? ==> Inv(Run(f, es).value)
    decreases |es|
  {
    if es != [] && Enabled(f, es[0]) {
      StepKeepsInv(f, es[0]);
      RunKeepsInv(Step(f, es[0]), es[1..]);
    }
  }

  /** Rewriting an option with its former contents undoes the edit. */
  lemma UpdateOptionUndo(q: Question, index: nat, text: string, isCorrect: bool)
    requires q.options.Some? && index < |q.options.value|
    ensures var before := q.options.value[index];
      UpdateOption(UpdateOption(q, index, text, isCorrect), index, before.text, before.isCorrect) == q
  {
    var r' := UpdateOption(UpdateOption(q, index, text, isCorrect), index, q.options.value[index].text, q.options.value[index].isCorrect);
    assert r'.options.value == q.options.value;
  }
}
