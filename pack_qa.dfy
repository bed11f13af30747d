/** A pack's questions and answers (src/components/PackQA.jsx): asking, expanding a question
    (fetching its answers once), and answering. */
module PackQA {
  import opened Common
  import opened Text
  import opened Store

  datatype Question = Question(id: string, user: UserId, title: string, body: string)
  datatype Answer = Answer(id: string, questionId: string, user: UserId, body: string)

  class Board {
    const userId: Option<UserId>
    /** Newest first. */
    var questions: seq<Question>
    /** Question id to its answers, oldest first, for the questions fetched so far. */
    var answers: map<string, seq<Answer>>
    var expanded: Option<string>
    var newTitle: string
    var newBody: string
    var showAskModal: bool
    var newAnswer: string

    constructor (userId: Option<UserId>)
      ensures this.userId == userId && questions == [] && answers == map[] && expanded.None?
      ensures newTitle == [] && newBody == [] && !showAskModal && newAnswer == []
    {
      this.userId := userId;
      questions, answers, expanded := [], map[], None;
      newTitle, newBody, showAskModal, newAnswer := [], [], false, [];
    }

    /** `handleAskQuestion`: a whitespace-only title is refused; otherwise the inserted question
        (id `newId`) goes first and the form is closed and cleared. A failed insert changes
        nothing. */
    method AskQuestion(newId: string, insertFails: bool) returns (asked: bool)
      modifies this`questions, this`newTitle, this`newBody, this`showAskModal
      ensures asked <==> !IsBlank(old(newTitle)) && userId.Some? && !insertFails
      ensures asked ==>
                questions == [Question(newId, userId.value, old(newTitle), old(newBody))] + old(questions)
                && newTitle == [] && newBody == [] && !showAskModal
      ensures !asked ==> questions == old(questions) && newTitle == old(newTitle)
                         && newBody == old(newBody) && showAskModal == old(showAskModal)
    {
      TrimEmptyIffBlank(newTitle);
      if Trim(newTitle) == [] || userId.None? || insertFails {
        return false;
      }
      questions := [Question(newId, userId.value, newTitle, newBody)] + questions;
      showAskModal := false;
      newTitle, newBody := [], [];
      asked := true;
    }

    /** `toggleQuestion`: the expanded question collapses; any other expands, and its answers
        are fetched (`fetch`) only when none are held for it yet. */
    method ToggleQuestion(questionId: string) returns (fetch: bool)
      modifies this`expanded
      ensures old(expanded) == Some(questionId) ==> expanded.None? && !fetch
      ensures old(expanded) != Some(questionId) ==>
                expanded == Some(questionId) && (fetch <==> questionId !in answers)
    {
      if expanded == Some(questionId) {
        expanded := None;
        fetch := false;
      } else {
        expanded := Some(questionId);
        fetch := questionId !in answers;
      }
    }

    /** `fetchAnswers`: the loaded answers replace that question's entry only. */
    method FetchAnswers(questionId: string, loaded: Option<seq<Answer>>)
      modifies this`answers
      ensures loaded.None? ==> answers == old(answers)
      ensures loaded.Some? ==> answers == old(answers)[questionId := loaded.value]
    {
      if loaded.Some? {
        answers := answers[questionId := loaded.value];
      }
    }

    /** `handlePostAnswer`: a whitespace-only answer is refused; otherwise the inserted answer
        (id `newId`) is appended to that question's answers (a list is started if none is held)
        and the input cleared. A failed insert changes nothing. */
    method PostAnswer(questionId: string, newId: string, insertFails: bool) returns (posted: bool)
      modifies this`answers, this`newAnswer
      ensures posted <==> !IsBlank(old(newAnswer)) && userId.Some? && !insertFails
      ensures posted ==>
                var held := if questionId in old(answers) then old(answers)[questionId] else [];
                && answers == old(answers)[questionId := held + [Answer(newId, questionId, userId.value, old(newAnswer))]]
                && newAnswer == []
      ensures !posted ==> answers == old(answers) && newAnswer == old(newAnswer)
    {
      TrimEmptyIffBlank(newAnswer);
      if Trim(newAnswer) == [] || userId.None? || insertFails {
        return false;
      }
      var held := if questionId in answers then answers[questionId] else [];
      answers := answers[questionId := held + [Answer(newId, questionId, userId.value, newAnswer)]];
      newAnswer := [];
      posted := true;
    }
  }

  /** Opening a question fetches its answers; closing and reopening it does not fetch again. */
  method OpenCloseReopen(questionId: string, loaded: seq<Answer>)
    returns (first: bool, second: bool, third: bool)
    ensures first && !second && !third
  {
    var b := new Board(Some("u1"));
    first := b.ToggleQuestion(questionId);
    b.FetchAnswers(questionId, Some(loaded));
    second := b.ToggleQuestion(questionId);
    third := b.ToggleQuestion(questionId);
  }

  /** Answering one question keeps the answers already loaded for another. */
  method PostAnswerKeepsOthers(questionId: string, other: string, loaded: seq<Answer>)
    returns (posted: bool, kept: Option<seq<Answer>>)
    requires other != questionId
    ensures posted && kept == Some(loaded)
  {
    var b := new Board(Some("u1"));
    b.FetchAnswers(other, Some(loaded));
    b.newAnswer := "Yes";
    assert !IsJsWhitespace(b.newAnswer[0]);
    posted := b.PostAnswer(questionId, "a1", false);
    kept := if other in b.answers then Some(b.answers[other]) else None;
  }
}
