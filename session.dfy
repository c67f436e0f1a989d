/** The client-side session state of the trivia component and its transitions,
    as values: one transition per inbound socket event and one for the user's
    choice of an answer. Each transition yields the new state together with the
    messages it emits on the socket. */
module Session {
  import opened JsValues

  /** The `newQuestion` payload, reduced to the two fields the component reads. */
  datatype Question = Question(prompt: Value, options: seq<Value>)

  /** The five pieces of component state. */
  datatype State = State(
    players: seq<string>,
    question: Nullable<Question>,
    selectedAnswer: Value,
    scores: map<string, int>,
    answers: map<string, Value>)

  /** An outbound socket message. */
  datatype Message = GetQuestion | SubmitAnswer(answer: Value)

  /** What can drive the component: a socket event or a click on an option. */
  datatype Input =
    | ConnectEvent
    | PlayersEvent(roster: seq<string>)
    | ScoresEvent(ledger: map<string, int>)
    | NewQuestionEvent(payload: Nullable<Question>)
    | AnswerSubmittedEvent(player: string, answer: Value)
    | ChooseOption(option: Value)

  /** The result of one transition: the new state and what it emitted. */
  datatype Step = Step(state: State, sent: seq<Message>)

  /** The state of a freshly mounted component. */
  function Initial(): (s: State)
    ensures s.question == NullRef && s.selectedAnswer == Null && CanSubmit(s)
    ensures s.players == [] && s.scores == map[] && s.answers == map[]
    ensures forall p :: Get(s.answers, p) == Undefined
  {
    State([], NullRef, Null, map[], map[])
  }

  /** The guard of `submitAnswer`: no truthy answer has been selected yet. */
  predicate CanSubmit(s: State) {
    !Truthy(s.selectedAnswer)
  }

  /** `newQuestion`: install the payload and reset the round. */
  function ReceiveQuestion(s: State, payload: Nullable<Question>): (r: State)
    ensures r.question == payload
    ensures r.selectedAnswer == Null && CanSubmit(r)
    ensures forall p :: Get(r.answers, p) == Undefined
    ensures r.players == s.players && r.scores == s.scores
  {
    State(s.players, payload, Null, s.scores, map[])
  }

  /** `answerSubmitted`: record one player's answer, last write wins. */
  function ReceiveAnswer(s: State, player: string, answer: Value): (r: State)
    ensures Get(r.answers, player) == answer
    ensures forall q :: q != player ==> Get(r.answers, q) == Get(s.answers, q)
    ensures r.answers.Keys == s.answers.Keys + {player}
    ensures r.players == s.players && r.question == s.question
    ensures r.selectedAnswer == s.selectedAnswer && r.scores == s.scores
  {
    s.(answers := s.answers[player := answer])
  }

  /** `submitAnswer(option)`: lock the choice and emit it, unless a truthy
      answer is already selected. */
  function Choose(s: State, option: Value): (r: Step)
    ensures CanSubmit(s) ==> r.state.selectedAnswer == option && r.sent == [SubmitAnswer(option)]
    ensures !CanSubmit(s) ==> r.state.selectedAnswer == s.selectedAnswer && r.sent == []
    ensures r.state == s.(selectedAnswer := r.state.selectedAnswer)
    ensures CanSubmit(r.state) <==> CanSubmit(s) && !Truthy(option)
  {
    if !Truthy(s.selectedAnswer) then
      Step(s.(selectedAnswer := option), [SubmitAnswer(option)])
    else
      Step(s, [])
  }

  /** One input, processed atomically. */
  function Apply(s: State, i: Input): (r: Step)
    ensures |r.sent| <= 1
    ensures r.sent == [GetQuestion] <==> i.ConnectEvent?
    ensures |r.sent| == 1 && r.sent[0].SubmitAnswer? <==> i.ChooseOption? && CanSubmit(s)
    ensures i.ConnectEvent? ==> r.state == s
    ensures !i.PlayersEvent? ==> r.state.players == s.players
    ensures !i.ScoresEvent? ==> r.state.scores == s.scores
    ensures !i.NewQuestionEvent? ==> r.state.question == s.question
    ensures !i.NewQuestionEvent? && !i.ChooseOption? ==> r.state.selectedAnswer == s.selectedAnswer
    ensures !i.NewQuestionEvent? && !i.AnswerSubmittedEvent? ==> r.state.answers == s.answers
  {
    match i
    case ConnectEvent => Step(s, [GetQuestion])
    case PlayersEvent(roster) => Step(s.(players := roster), [])
    case ScoresEvent(ledger) => Step(s.(scores := ledger), [])
    case NewQuestionEvent(payload) => Step(ReceiveQuestion(s, payload), [])
    case AnswerSubmittedEvent(player, answer) => Step(ReceiveAnswer(s, player, answer), [])
    case ChooseOption(option) => Choose(s, option)
  }

  /** Inputs processed one at a time, in order; the emitted messages in order. */
  function Run(s: State, inputs: seq<Input>): (r: Step)
    decreases |inputs|
  {
    if inputs == [] then Step(s, [])
    else
      var first := Apply(s, inputs[0]);
      var rest := Run(first.state, inputs[1..]);
      Step(rest.state, first.sent + rest.sent)
  }
}
