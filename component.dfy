/** The `TriviaGame` component as an object: its five state variables are
    fields, every socket handler and `submitAnswer` is a method that updates
    them in place, and `socket.emit` appends to an outbound log. */
module Component {
  import opened JsValues
  import opened Session

  class TriviaGame {
    var players: seq<string>
    var question: Nullable<Question>
    var selectedAnswer: Value
    var scores: map<string, int>
    var answers: map<string, Value>
    /** Every message emitted on the socket, oldest first. */
    var outbox: seq<Message>

    /** The component state as a value. */
    function Snapshot(): State
      reads this
    {
      State(players, question, selectedAnswer, scores, answers)
    }

    /** The initial `useState` values; nothing has been emitted. */
    constructor ()
      ensures Snapshot() == Initial()
      ensures outbox == []
    {
      players := [];
      question := NullRef;
      selectedAnswer := Null;
      scores := map[];
      answers := map[];
      outbox := [];
    }

    /** `connect`: request the current question; the state is untouched. */
    method OnConnect()
      modifies this
      ensures Snapshot() == old(Snapshot())
      ensures outbox == old(outbox) + [GetQuestion]
      ensures Step(Snapshot(), [GetQuestion]) == Apply(old(Snapshot()), ConnectEvent)
    {
      outbox := outbox + [GetQuestion];
    }

    /** `players`: replace the roster. */
    method OnPlayers(updatedPlayers: seq<string>)
      modifies this
      ensures players == updatedPlayers
      ensures question == old(question) && selectedAnswer == old(selectedAnswer)
      ensures scores == old(scores) && answers == old(answers)
      ensures outbox == old(outbox)
      ensures Step(Snapshot(), []) == Apply(old(Snapshot()), PlayersEvent(updatedPlayers))
    {
      players := updatedPlayers;
    }

    /** `scores`: replace the score table. */
    method OnScores(updatedScores: map<string, int>)
      modifies this
      ensures scores == updatedScores
      ensures players == old(players) && question == old(question)
      ensures selectedAnswer == old(selectedAnswer) && answers == old(answers)
      ensures outbox == old(outbox)
      ensures Step(Snapshot(), []) == Apply(old(Snapshot()), ScoresEvent(updatedScores))
    {
      scores := updatedScores;
    }

    /** `newQuestion`: install the question, clear the selection and the answers. */
    method OnNewQuestion(newQ: Nullable<Question>)
      modifies this
      ensures question == newQ && selectedAnswer == Null && answers == map[]
      ensures players == old(players) && scores == old(scores)
      ensures outbox == old(outbox)
      ensures Step(Snapshot(), []) == Apply(old(Snapshot()), NewQuestionEvent(newQ))
    {
      question := newQ;
      selectedAnswer := Null;
      answers := map[];
    }

    /** `answerSubmitted`: merge one player's answer into the answers object. */
    method OnAnswerSubmitted(player: string, answer: Value)
      modifies this
      ensures answers == old(answers)[player := answer]
      ensures players == old(players) && question == old(question)
      ensures selectedAnswer == old(selectedAnswer) && scores == old(scores)
      ensures outbox == old(outbox)
      ensures Step(Snapshot(), []) == Apply(old(Snapshot()), AnswerSubmittedEvent(player, answer))
    {
      answers := answers[player := answer];
    }

    /** `submitAnswer(option)`: when no truthy answer is selected, select
        `option` and emit it; otherwise do nothing at all. */
    method SubmitAnswer(option: Value)
      modifies this
      ensures old(CanSubmit(Snapshot())) ==>
                selectedAnswer == option && outbox == old(outbox) + [Message.SubmitAnswer(option)]
      ensures !old(CanSubmit(Snapshot())) ==>
                selectedAnswer == old(selectedAnswer) && outbox == old(outbox)
      ensures players == old(players) && question == old(question)
      ensures scores == old(scores) && answers == old(answers)
      ensures Snapshot() == Apply(old(Snapshot()), ChooseOption(option)).state
      ensures outbox == old(outbox) + Apply(old(Snapshot()), ChooseOption(option)).sent
    {
      if !Truthy(selectedAnswer) {
        selectedAnswer := option;
        outbox := outbox + [Message.SubmitAnswer(option)];
      }
    }

    /** Each input dispatched to the handler registered for it. */
    method Handle(i: Input)
      modifies this
      ensures Snapshot() == Apply(old(Snapshot()), i).state
      ensures outbox == old(outbox) + Apply(old(Snapshot()), i).sent
    {
      match i
      case ConnectEvent => OnConnect();
      case PlayersEvent(roster) => OnPlayers(roster);
      case ScoresEvent(ledger) => OnScores(ledger);
      case NewQuestionEvent(payload) => OnNewQuestion(payload);
      case AnswerSubmittedEvent(player, answer) => OnAnswerSubmitted(player, answer);
      case ChooseOption(option) => SubmitAnswer(option);
    }
  }
}
