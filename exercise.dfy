/** The quiz state machine (exercise.js): ready, then asked and answered in
    turn, until the last question has been answered and the next `ask`
    finishes the exercise. The question factory is split in two: the
    question `makeQuestion` would produce is passed to the operation that
    asks it, and `checkAnswer` is a function fixed at construction. The
    clock is the `now` parameter. */
module Exercises {
  import opened Wrappers

  datatype ExerciseError = InvalidTransition | NoView | OtherError(message: string)

  /** The states of the state machine. */
  datatype Phase = Ready | Asked | Answered | Finished

  /** The numeric parameters and counters (`n_params`). */
  datatype NParams = NParams(
    totalQuestions: int,
    currentQuestion: int,
    pointsRequired: int,
    pointsAchieved: int,
    timeLimit: int,
    timeElapsed: int)

  /** What checkAnswer returns for a question and an answer. */
  datatype AnswerCheck<Verdict> = AnswerCheck(points: int, result: Verdict)

  /** What makeView hands to the page of each state. */
  datatype View<Question, Answer, Verdict> =
    | AskedView(path: string, nParams: NParams, question: Question)
    | AnsweredView(path: string, nParams: NParams, question: Question, answer: Answer, result: Verdict)
    | FinishedView(path: string, nParams: NParams, success: bool)

  /** The exercise is passed: enough points, and within the time limit
      unless the limit is 0 (none). */
  predicate Succeeds(p: NParams)
  {
    p.pointsAchieved >= p.pointsRequired && (p.timeElapsed <= p.timeLimit || p.timeLimit == 0)
  }

  /** The last question has been asked: only a positive total ends the
      exercise. */
  predicate OnLastQuestion(p: NParams)
  {
    p.totalQuestions > 0 && p.currentQuestion == p.totalQuestions
  }

  class Exercise<Question, Answer, Verdict> {
    const id: string
    const checkAnswer: (Question, Answer) -> AnswerCheck<Verdict>
    var nParams: NParams
    var phase: Phase
    var currentQuestion: Option<Question>
    var currentAnswer: Option<Answer>
    var currentResult: Option<Verdict>
    var success: bool
    var t0: int

    /** The counter is 0 exactly before launch, never passes a positive
        total, and the exercise finishes only on the last question; each
        state has the question, answer and result it shows. */
    predicate Valid()
      reads this
    {
      && nParams.totalQuestions >= 0
      && nParams.currentQuestion >= 0
      && (phase == Ready <==> nParams.currentQuestion == 0)
      && (nParams.totalQuestions > 0 ==> nParams.currentQuestion <= nParams.totalQuestions)
      && (phase != Ready ==> currentQuestion.Some?)
      && (phase == Answered ==> currentAnswer.Some? && currentResult.Some?)
      && (phase == Finished ==> OnLastQuestion(nParams))
    }

    constructor(id: string, checkAnswer: (Question, Answer) -> AnswerCheck<Verdict>, params: NParams)
      requires params.totalQuestions >= 0
      ensures Valid()
      ensures this.id == id && this.checkAnswer == checkAnswer
      ensures nParams == params.(currentQuestion := 0, pointsAchieved := 0, timeElapsed := 0)
      ensures phase == Ready && currentQuestion == None && currentAnswer == None && currentResult == None
      ensures !success && t0 == 0
    {
      this.id := id;
      this.checkAnswer := checkAnswer;
      nParams := params.(currentQuestion := 0, pointsAchieved := 0, timeElapsed := 0);
      phase := Ready;
      currentQuestion := None;
      currentAnswer := None;
      currentResult := None;
      success := false;
      t0 := 0;
    }

    /** #nextQuestion: the new question, and the counter one up. */
    method NextQuestion(question: Question)
      modifies this
      ensures currentQuestion == Some(question)
      ensures nParams == old(nParams).(currentQuestion := old(nParams.currentQuestion) + 1)
      ensures phase == old(phase) && currentAnswer == old(currentAnswer) && currentResult == old(currentResult)
      ensures success == old(success) && t0 == old(t0)
    {
      currentQuestion := Some(question);
      nParams := nParams.(currentQuestion := nParams.currentQuestion + 1);
    }

    /** launch: only from ready; asks the first question and starts the
        clock. */
    method Launch(question: Question, now: int) returns (r: Result<(), ExerciseError>)
      requires Valid()
      modifies this
      ensures Valid()
      ensures old(phase) == Ready ==>
                && r == Ok(())
                && phase == Asked
                && nParams == old(nParams).(currentQuestion := 1)
                && currentQuestion == Some(question) && t0 == now
                && currentAnswer == old(currentAnswer) && currentResult == old(currentResult)
                && success == old(success)
      ensures old(phase) != Ready ==> r == Err(InvalidTransition) && unchanged(this)
    {
      if phase == Ready {
        NextQuestion(question);
        t0 := now;
        phase := Asked;
        return Ok(());
      }
      return Err(InvalidTransition);
    }

    /** #finish: decides success and moves to finished. */
    method Finish()
      requires phase == Answered
      modifies this
      ensures phase == Finished && success == Succeeds(nParams)
      ensures nParams == old(nParams) && currentQuestion == old(currentQuestion)
      ensures currentAnswer == old(currentAnswer) && currentResult == old(currentResult) && t0 == old(t0)
    {
      success := nParams.pointsAchieved >= nParams.pointsRequired
        && (nParams.timeElapsed <= nParams.timeLimit || nParams.timeLimit == 0);
      phase := Finished;
    }

    /** answer: only from asked; records the answer and its verdict, adds
        the points, and sets the time elapsed since launch. */
    method Answer(answer: Answer, now: int) returns (r: Result<(), ExerciseError>)
      requires Valid()
      modifies this
      ensures Valid()
      ensures old(phase) == Asked ==>
                var check := checkAnswer(old(currentQuestion).value, answer);
                && r == Ok(())
                && phase == Answered
                && currentAnswer == Some(answer) && currentResult == Some(check.result)
                && nParams == old(nParams).(pointsAchieved := old(nParams.pointsAchieved) + check.points,
                                            timeElapsed := now - old(t0))
                && currentQuestion == old(currentQuestion) && success == old(success) && t0 == old(t0)
      ensures old(phase) != Asked ==> r == Err(InvalidTransition) && unchanged(this)
    {
      if phase == Asked {
        currentAnswer := Some(answer);
        var result := checkAnswer(currentQuestion.value, answer);
        nParams := nParams.(pointsAchieved := nParams.pointsAchieved + result.points);
        nParams := nParams.(timeElapsed := now - t0);
        currentResult := Some(result.result);
        phase := Answered;
        return Ok(());
      }
      return Err(InvalidTransition);
    }

    /** ask: only from answered; finishes after the last question of a
        positive total, otherwise asks the next question. */
    method Ask(question: Question) returns (r: Result<(), ExerciseError>)
      requires Valid()
      modifies this
      ensures Valid()
      ensures old(phase) == Answered && OnLastQuestion(old(nParams)) ==>
                && r == Ok(())
                && phase == Finished && success == Succeeds(old(nParams))
                && nParams == old(nParams) && currentQuestion == old(currentQuestion)
                && currentAnswer == old(currentAnswer) && currentResult == old(currentResult) && t0 == old(t0)
      ensures old(phase) == Answered && !OnLastQuestion(old(nParams)) ==>
                && r == Ok(())
                && phase == Asked
                && nParams == old(nParams).(currentQuestion := old(nParams.currentQuestion) + 1)
                && currentQuestion == Some(question)
                && currentAnswer == old(currentAnswer) && currentResult == old(currentResult)
                && success == old(success) && t0 == old(t0)
      ensures old(phase) != Answered ==> r == Err(InvalidTransition) && unchanged(this)
    {
      if phase == Answered {
        if nParams.totalQuestions > 0 && nParams.currentQuestion == nParams.totalQuestions {
          Finish();
        } else {
          NextQuestion(question);
          phase := Asked;
        }
        return Ok(());
      }
      return Err(InvalidTransition);
    }

    /** makeView: the page of the current state with what it shows; there
        is none before launch. */
    method MakeView() returns (r: Result<View<Question, Answer, Verdict>, ExerciseError>)
      requires Valid()
      ensures r.Err? <==> phase == Ready
      ensures r.Err? ==> r.error == NoView
      ensures phase == Asked ==> r == Ok(AskedView(id + "/asked", nParams, currentQuestion.value))
      ensures phase == Answered ==>
                r == Ok(AnsweredView(id + "/answered", nParams, currentQuestion.value, currentAnswer.value, currentResult.value))
      ensures phase == Finished ==> r == Ok(FinishedView(id + "/finished", nParams, success))
    {
      if phase == Asked {
        return Ok(AskedView(id + "/asked", nParams, currentQuestion.value));
      } else if phase == Answered {
        return Ok(AnsweredView(id + "/answered", nParams, currentQuestion.value, currentAnswer.value, currentResult.value));
      } else if phase == Finished {
        return Ok(FinishedView(id + "/finished", nParams, success));
      }
      return Err(NoView);
    }
  }

  /** ignoreInvalidTransition: an InvalidTransition error becomes success
      with no value (`None`); a value or any other error passes through. */
  function IgnoreInvalidTransition<T>(r: Result<T, ExerciseError>): (o: Result<Option<T>, ExerciseError>)
    ensures o.Err? <==> r.Err? && r.error != InvalidTransition
    ensures o.Err? ==> o.error == r.error
    ensures r.Ok? ==> o == Ok(Some(r.value))
    ensures o == Ok(None) <==> r == Err(InvalidTransition)
  {
    match r
    case Ok(v) => Ok(Some(v))
    case Err(e) => if e == InvalidTransition then Ok(None) else Err(e)
  }
}
