/** The request-body schema of the quiz routes (`optionSchema`,
    `questionSchema`, `quizSchema`) and its parser. A body is modelled as
    already-typed JSON: strings are strings, flags are booleans, and an
    optional field is `None` when it is absent. */
module QuizSchema {
  import opened Base

  /** The two question types the schema's enum admits. */
  datatype Kind = MultipleChoice | FillBlank

  const MultipleChoiceTag: string := "multiple_choice"
  const FillBlankTag: string := "fill_blank"

  /** At most this many options per question. */
  const MaxOptions: nat := 4

  /** The JSON spelling of a question type. */
  function TagOf(k: Kind): string {
    match k
    case MultipleChoice => MultipleChoiceTag
    case FillBlank => FillBlankTag
  }

  /** The enum check: a tag names a type iff it is one of the two spellings. */
  function KindOf(tag: string): (r: Option<Kind>)
    ensures forall k :: r == Some(k) <==> tag == TagOf(k)
    ensures r.None? <==> tag != MultipleChoiceTag && tag != FillBlankTag
  {
    if tag == MultipleChoiceTag then Some(MultipleChoice)
    else if tag == FillBlankTag then Some(FillBlank)
    else None
  }

  /** An answer option: `{ text, isCorrect }` in a body, and also the data
      of an `options` row. */
  datatype Choice = Choice(text: string, isCorrect: bool)

  /** A question as it arrives in a request body, its type still a string. */
  datatype QuestionBody = QuestionBody(text: string, tag: string,
                                       options: Option<seq<Choice>>,
                                       answer: Option<string>)

  datatype QuizBody = QuizBody(title: string, description: string,
                               questions: seq<QuestionBody>)

  /** A question whose type is known. This is what the schema yields, and
      it is also the shape of the client's `Question` interface. */
  datatype Question = Question(text: string, kind: Kind,
                               options: Option<seq<Choice>>,
                               answer: Option<string>)

  datatype Quiz = Quiz(title: string, description: string,
                       questions: seq<Question>)

  /** `optionSchema`: non-empty text. */
  predicate ValidChoice(c: Choice) {
    |c.text| >= 1
  }

  /** `questionSchema`: non-empty text, a known type, and if options are
      present at most four of them, each valid. There is no lower bound on
      options and no check that one is correct. */
  predicate ValidQuestionBody(q: QuestionBody) {
    && |q.text| >= 1
    && (q.tag == MultipleChoiceTag || q.tag == FillBlankTag)
    && (q.options.Some? ==>
          |q.options.value| <= MaxOptions
          && forall i :: 0 <= i < |q.options.value| ==> ValidChoice(q.options.value[i]))
  }

  /** `quizSchema`: non-empty title and description, every question valid;
      the empty question list is allowed. */
  predicate ValidQuizBody(b: QuizBody) {
    && |b.title| >= 1
    && |b.description| >= 1
    && forall i :: 0 <= i < |b.questions| ==> ValidQuestionBody(b.questions[i])
  }

  /** The body form of a typed question (what `JSON.stringify` sends). */
  function ToBody(q: Question): (r: QuestionBody)
    ensures KindOf(r.tag) == Some(q.kind)
  {
    QuestionBody(q.text, TagOf(q.kind), q.options, q.answer)
  }

  function QuizToBody(quiz: Quiz): (r: QuizBody)
    ensures |r.questions| == |quiz.questions|
    ensures forall i :: 0 <= i < |r.questions| ==> r.questions[i] == ToBody(quiz.questions[i])
  {
    QuizBody(quiz.title, quiz.description,
             seq(|quiz.questions|, i requires 0 <= i < |quiz.questions| => ToBody(quiz.questions[i])))
  }

  /** Checks every option of a list in order. */
  function ParseChoices(cs: seq<Choice>): (r: bool)
    ensures r <==> forall i :: 0 <= i < |cs| ==> ValidChoice(cs[i])
  {
    if cs == [] then true
    else |cs[0].text| >= 1 && ParseChoices(cs[1..])
  }

  /** `questionSchema.parse`. */
  function ParseQuestion(q: QuestionBody): (r: Option<Question>)
    ensures r.Some? <==> ValidQuestionBody(q)
    ensures r.Some? ==> ToBody(r.value) == q
  {
    if |q.text| < 1 then None
    else match KindOf(q.tag)
      case None => None
      case Some(k) =>
        if q.options.Some? && (|q.options.value| > MaxOptions || !ParseChoices(q.options.value)) then None
        else Some(Question(q.text, k, q.options, q.answer))
  }

  /** Parses a question list, failing on the first invalid question. */
  function ParseQuestions(qs: seq<QuestionBody>): (r: Option<seq<Question>>)
    ensures r.Some? <==> forall i :: 0 <= i < |qs| ==> ValidQuestionBody(qs[i])
    ensures r.Some? ==> |r.value| == |qs|
    ensures r.Some? ==> forall i :: 0 <= i < |qs| ==> ToBody(r.value[i]) == qs[i]
  {
    if qs == [] then Some([])
    else match ParseQuestion(qs[0])
      case None => None
      case Some(q) =>
        match ParseQuestions(qs[1..])
        case None => None
        case Some(rest) => Some([q] + rest)
  }

  /** `quizSchema.parse(req.body)`: the parsed quiz, or `None` for a
      `ZodError`. */
  function ParseQuiz(b: QuizBody): (r: Option<Quiz>)
    ensures r.Some? <==> ValidQuizBody(b)
    ensures r.Some? ==> r.value.title == b.title && r.value.description == b.description
    ensures r.Some? ==> QuizToBody(r.value) == b
  {
    if |b.title| < 1 || |b.description| < 1 then None
    else match ParseQuestions(b.questions)
      case None => None
      case Some(qs) => Some(Quiz(b.title, b.description, qs))
  }

  /** A typed question passes `questionSchema` iff its text is non-empty and
      its options, if any, number at most four and all have text. */
  predicate ValidQuestion(q: Question) {
    && |q.text| >= 1
    && (q.options.Some? ==>
          |q.options.value| <= MaxOptions
          && forall i :: 0 <= i < |q.options.value| ==> ValidChoice(q.options.value[i]))
  }

  /** Parsing the body form of a typed question gives it back exactly when
      it is valid: the schema and `ToBody` form a round trip. */
  lemma ParseToBody(q: Question)
    ensures ParseQuestion(ToBody(q)) == (if ValidQuestion(q) then Some(q) else None)
  {
  }

  /** The same round trip for a whole quiz. */
  lemma {:induction false} ParseQuizToBody(quiz: Quiz)
    requires |quiz.title| >= 1 && |quiz.description| >= 1
    requires forall i :: 0 <= i < |quiz.questions| ==> ValidQuestion(quiz.questions[i])
    ensures ParseQuiz(QuizToBody(quiz)) == Some(quiz)
  {
    var b := QuizToBody(quiz);
    forall i | 0 <= i < |b.questions|
      ensures ValidQuestionBody(b.questions[i])
    {
      ParseToBody(quiz.questions[i]);
    }
    var r := ParseQuiz(b);
    assert r.Some?;
    var qs := r.value.questions;
    assert |qs| == |quiz.questions|;
    forall i | 0 <= i < |qs|
      ensures qs[i] == quiz.questions[i]
    {
      ParseToBody(quiz.questions[i]);
      assert ToBody(qs[i]) == ToBody(quiz.questions[i]);
    }
    assert qs == quiz.questions;
  }
}
