/**
 * The sample lesson's translation quiz (`Lesson` page): the learner types a
 * Punjabi greeting, and each check of the answer counts an attempt and shows
 * feedback. After two wrong attempts the feedback gives the answer away.
 */
module LessonPage {
  import opened Wrappers
  import opened Text

  /** `correctAnswers`: the phrases the quiz accepts, in Gurmukhi and in transliteration. */
  const AcceptedAnswers: seq<string> := ["ਸਤ ਸ੍ਰੀ ਅਕਾਲ", "sat sri akal", "namaste", "ਨਮਸਤੇ"]

  const SuccessMessage := "Correct! Well done! \U{1F389}"
  /** The transliterated answer, as the third wrong attempt's hint spells it. */
  const AnswerName := "Sat Sri Akal"
  const RevealMessage := "Try \"" + AnswerName + "\" (ਸਤ ਸ੍ਰੀ ਅਕਾਲ) - the traditional Punjabi greeting!"
  const RetryMessage := "Try again! " + "Think about " + "traditional " + "Punjabi " + "greetings."

  datatype FeedbackType = Success | Error

  /** The feedback banner; `kind` is `None` (TypeScript `null`) before the first check. */
  datatype Feedback = Feedback(kind: Option<FeedbackType>, message: string)

  const NoFeedback := Feedback(None, "")

  /** `answer.toLowerCase().trim()`. */
  function Normalize(answer: string): (r: string)
    ensures |r| <= |answer|
  {
    Trim(ToLower(answer))
  }

  /** The normalised answer is lower-case already and empty exactly when the answer is blank. */
  lemma NormalizeIsLowerTrimmed(answer: string)
    ensures ToLower(Normalize(answer)) == Normalize(answer)
    ensures Normalize(answer) == [] <==> AllWhitespace(answer)
  {
    TrimToLowerCommute(answer);
    ToLowerIdempotent(Trim(answer));
  }

  /** `isCorrect` in `checkAnswer`: `correctAnswers.some(correct => userAnswer.includes(correct.toLowerCase()))`. */
  predicate IsCorrect(answer: string): (b: bool)
    ensures b ==> Normalize(answer) != []
  {
    var n := Normalize(answer);
    NoPhraseInBlank(n);
    exists k | 0 <= k < |AcceptedAnswers| :: Includes(n, ToLower(AcceptedAnswers[k]))
  }

  /** The empty string includes none of the (non-empty) accepted phrases. */
  lemma NoPhraseInBlank(n: string)
    ensures n == [] ==> forall k | 0 <= k < |AcceptedAnswers| :: !Includes(n, ToLower(AcceptedAnswers[k]))
  {
    if n == [] {
      forall k | 0 <= k < |AcceptedAnswers| ensures !Includes(n, ToLower(AcceptedAnswers[k])) {
        NothingInEmpty(ToLower(AcceptedAnswers[k]));
      }
    }
  }

  /**
   * An answer is correct exactly when, lower-cased and trimmed, it contains
   * one of the accepted phrases somewhere inside it (not necessarily as all of it).
   */
  lemma IsCorrectIff(answer: string)
    ensures IsCorrect(answer) <==>
      exists k | 0 <= k < |AcceptedAnswers| :: IsSubstring(ToLower(AcceptedAnswers[k]), Normalize(answer))
  {
    forall k | 0 <= k < |AcceptedAnswers|
      ensures Includes(Normalize(answer), ToLower(AcceptedAnswers[k])) <==>
              IsSubstring(ToLower(AcceptedAnswers[k]), Normalize(answer))
    {
      IncludesIsSubstring(Normalize(answer), ToLower(AcceptedAnswers[k]));
    }
  }

  /** An answer that is empty once trimmed is never correct: every accepted phrase is non-empty. */
  lemma BlankNeverCorrect(answer: string)
    requires AllWhitespace(answer)
    ensures !IsCorrect(answer)
  {
    NormalizeIsLowerTrimmed(answer);
  }

  /**
   * The feedback `checkAnswer` shows for `answer`, where `attemptsBefore` is
   * the attempt count the handler sees, the one before its own increment.
   */
  function Evaluate(answer: string, attemptsBefore: nat): (f: Feedback)
    ensures f.kind == Some(Success) <==> IsCorrect(answer)
    ensures f.kind == Some(Error) <==> !IsCorrect(answer)
    ensures f.message == SuccessMessage <==> IsCorrect(answer)
    ensures f.message == RevealMessage <==> !IsCorrect(answer) && attemptsBefore >= 2
    ensures f.message == RetryMessage <==> !IsCorrect(answer) && attemptsBefore < 2
  {
    if IsCorrect(answer) then Feedback(Some(Success), SuccessMessage)
    else if attemptsBefore >= 2 then Feedback(Some(Error), RevealMessage)
    else Feedback(Some(Error), RetryMessage)
  }

  /** The hint for the third wrong attempt spells out the answer. */
  lemma RevealNamesAnswer()
    ensures IsSubstring(AnswerName, RevealMessage)
  {
    var prefix, suffix := "Try \"", "\" (ਸਤ ਸ੍ਰੀ ਅਕਾਲ) - the traditional Punjabi greeting!";
    assert RevealMessage == prefix + AnswerName + suffix;
    assert RevealMessage[|prefix|..|prefix| + |AnswerName|] == AnswerName;
    assert OccursAt(AnswerName, RevealMessage, |prefix|);
  }

  /** The generic hint does not give the answer away. */
  lemma RetryHidesAnswer()
    ensures !IsSubstring(AnswerName, RetryMessage)
  {
    assert 'S' !in "Try again! " && 'S' !in "Think about " && 'S' !in "traditional ";
    assert 'S' !in "Punjabi " && 'S' !in "greetings.";
    FirstCharMissingSubstring(RetryMessage, AnswerName);
  }

  /** The feedback names the answer "Sat Sri Akal" exactly on a wrong answer from the third attempt on. */
  lemma RevealsAnswerIff(answer: string, attemptsBefore: nat)
    ensures IsSubstring(AnswerName, Evaluate(answer, attemptsBefore).message) <==>
      !IsCorrect(answer) && attemptsBefore >= 2
  {
    RevealNamesAnswer();
    RetryHidesAnswer();
    FirstCharMissingSubstring(SuccessMessage, AnswerName);
  }

  /** Lower-cased, "Namaste please" is "namaste" followed by " please". */
  lemma LowerNamastePlease(answer: string)
    requires answer == "Namaste please"
    ensures ToLower(answer) == "namaste" + " please"
  {
    assert answer == "N" + "amaste please";
    ToLowerAppend("N", "amaste please");
    ToLowerUnchanged("amaste please");
    assert ToLower("N")[0] == 'n';
    assert "n" + "amaste please" == "namaste" + " please";
  }

  /** Lower-cased and trimmed, "Namaste please" is "namaste" followed by " please". */
  lemma NormalizeNamastePlease(answer: string)
    requires answer == "Namaste please"
    ensures Normalize(answer) == "namaste" + " please"
  {
    LowerNamastePlease(answer);
    TrimUnchanged("namaste" + " please");
  }

  /** Any text that contains "namaste" contains one of the accepted phrases. */
  lemma NamasteIsAccepted(userAnswer: string)
    requires Includes(userAnswer, "namaste")
    ensures exists k | 0 <= k < |AcceptedAnswers| :: Includes(userAnswer, ToLower(AcceptedAnswers[k]))
  {
    assert AcceptedAnswers[2] == "namaste";
    ToLowerUnchanged("namaste");
    assert Includes(userAnswer, ToLower(AcceptedAnswers[2]));
  }

  /** An answer whose normalised form contains "namaste" is correct. */
  lemma ContainsNamasteIsCorrect(answer: string)
    requires Includes(Normalize(answer), "namaste")
    ensures IsCorrect(answer)
  {
    NamasteIsAccepted(Normalize(answer));
  }

  /** "Namaste please" is accepted: it contains "namaste". */
  lemma NamastePleaseIsCorrect(answer: string)
    requires answer == "Namaste please"
    ensures IsCorrect(answer) && Trim(answer) == answer
  {
    NormalizeNamastePlease(answer);
    IncludesMiddle("", "namaste", " please");
    assert "" + "namaste" + " please" == Normalize(answer);
    ContainsNamasteIsCorrect(answer);
    TrimUnchanged(answer);
  }

  /** "hi there" contains none of the accepted phrases. */
  lemma HiThereIsWrong(answer: string)
    requires answer == "hi there"
    ensures !IsCorrect(answer) && Trim(answer) == answer
  {
    ToLowerUnchanged(answer);
    TrimUnchanged(answer);
    forall k | 0 <= k < |AcceptedAnswers| ensures !Includes(answer, ToLower(AcceptedAnswers[k])) {
      var p := AcceptedAnswers[k];
      assert ToLower(p)[0] == LowerChar(p[0]);
      FirstCharMissing(answer, ToLower(p));
    }
  }

  /** The quiz's three state cells: `answer`, `feedback` and `attempts`. */
  class Quiz {
    var answer: string
    var feedback: Feedback
    var attempts: nat

    constructor ()
      ensures answer == "" && feedback == NoFeedback && attempts == 0
    {
      answer, feedback, attempts := "", NoFeedback, 0;
    }

    /** The input's `onChange`: stores the draft answer. */
    method SetAnswer(text: string)
      modifies this
      ensures answer == text
      ensures feedback == old(feedback) && attempts == old(attempts)
    {
      answer := text;
    }

    /** `checkAnswer`: counts one attempt, right or wrong, and shows the feedback for the answer. */
    method CheckAnswer()
      modifies this
      ensures attempts == old(attempts) + 1
      ensures feedback == Evaluate(old(answer), old(attempts))
      ensures answer == old(answer)
    {
      var before := attempts;
      attempts := attempts + 1;
      feedback := Evaluate(answer, before);
    }

    /** `resetLesson`: clears the answer and the feedback and sets the attempt count back to 0. */
    method ResetLesson()
      modifies this
      ensures answer == "" && feedback == NoFeedback && attempts == 0
    {
      answer, feedback, attempts := "", NoFeedback, 0;
    }

    /** `handleKeyPress`: Enter checks the answer, unless it is blank once trimmed. */
    method HandleKeyPress(key: string)
      modifies this
      ensures key == "Enter" && Trim(old(answer)) != "" ==>
        attempts == old(attempts) + 1 && feedback == Evaluate(old(answer), old(attempts)) && answer == old(answer)
      ensures !(key == "Enter" && Trim(old(answer)) != "") ==>
        attempts == old(attempts) && feedback == old(feedback) && answer == old(answer)
    {
      if key == "Enter" && Trim(answer) != "" {
        CheckAnswer();
      }
    }

    /** The "Check Answer" button, disabled while the trimmed answer is blank. */
    method PressCheckButton()
      modifies this
      ensures Trim(old(answer)) != "" ==>
        attempts == old(attempts) + 1 && feedback == Evaluate(old(answer), old(attempts)) && answer == old(answer)
      ensures Trim(old(answer)) == "" ==>
        attempts == old(attempts) && feedback == old(feedback) && answer == old(answer)
    {
      if Trim(answer) != "" {
        CheckAnswer();
      }
    }
  }

  /** Enter on a wrong, non-blank answer: one more attempt and the hint the attempt count calls for. */
  method EnterWrong(quiz: Quiz)
    requires !IsCorrect(quiz.answer) && Trim(quiz.answer) != ""
    modifies quiz
    ensures quiz.answer == old(quiz.answer) && quiz.attempts == old(quiz.attempts) + 1
    ensures old(quiz.attempts) < 2 ==> quiz.feedback == Feedback(Some(Error), RetryMessage)
    ensures old(quiz.attempts) >= 2 ==> quiz.feedback == Feedback(Some(Error), RevealMessage)
  {
    quiz.HandleKeyPress("Enter");
  }

  /** Enter on a blank answer changes nothing. */
  method EnterBlank(quiz: Quiz)
    requires AllWhitespace(quiz.answer)
    modifies quiz
    ensures quiz.answer == old(quiz.answer) && quiz.feedback == old(quiz.feedback) && quiz.attempts == old(quiz.attempts)
  {
    quiz.HandleKeyPress("Enter");
  }

  /** Typing a right answer and pressing the button: one more attempt and the success message. */
  method AnswerRight(quiz: Quiz, right: string)
    requires IsCorrect(right)
    modifies quiz
    ensures quiz.answer == right && quiz.attempts == old(quiz.attempts) + 1
    ensures quiz.feedback == Feedback(Some(Success), SuccessMessage)
  {
    NormalizeIsLowerTrimmed(right);
    quiz.SetAnswer(right);
    quiz.PressCheckButton();
  }

  /**
   * A wrong answer submitted with Enter gets the generic hint twice and gives
   * the answer away on the third try.
   */
  method WrongAnswerSession(wrong: string)
    requires !IsCorrect(wrong) && Trim(wrong) != ""
  {
    var quiz := new Quiz();
    quiz.SetAnswer(wrong);
    EnterWrong(quiz);
    assert quiz.feedback == Feedback(Some(Error), RetryMessage) && quiz.attempts == 1;
    EnterWrong(quiz);
    assert quiz.feedback == Feedback(Some(Error), RetryMessage) && quiz.attempts == 2;
    EnterWrong(quiz);
    assert quiz.feedback == Feedback(Some(Error), RevealMessage) && quiz.attempts == 3;
  }

  /** Two resets leave the reset state, and Enter on the blank answer then does nothing. */
  method ResetTwiceThenEnter(quiz: Quiz)
    modifies quiz
    ensures quiz.answer == "" && quiz.feedback == NoFeedback && quiz.attempts == 0
  {
    quiz.ResetLesson();
    quiz.ResetLesson();
    EnterBlank(quiz);
  }

  /**
   * After a reset (a second reset changes nothing) Enter on the blank answer
   * does nothing, and a right answer then succeeds on the first attempt.
   */
  method RightAnswerSession(right: string)
    requires IsCorrect(right)
  {
    var quiz := new Quiz();
    ResetTwiceThenEnter(quiz);
    AnswerRight(quiz, right);
    assert quiz.feedback == Feedback(Some(Success), SuccessMessage) && quiz.attempts == 1;
  }

  /** The second scenario with "Namaste please" as the right answer. */
  method RightAnswerAfterReset()
  {
    var right := "Namaste please";
    NamastePleaseIsCorrect(right);
    RightAnswerSession(right);
  }

  /** The first scenario with "hi there" as the wrong answer. */
  method ExampleSession()
  {
    var wrong := "hi there";
    HiThereIsWrong(wrong);
    WrongAnswerSession(wrong);
  }
}
