/** Properties of whole input sequences processed by the component: how the
    outbound log grows, at most one truthy submission between two `newQuestion` events, and the
    last-write-wins behaviour of the replaced and merged state. */
module Traces {
  import opened JsValues
  import opened Session
  import opened View

  /** No `newQuestion` event among the inputs: they all fall within one question. */
  predicate WithinOneQuestion(inputs: seq<Input>) {
    forall k :: 0 <= k < |inputs| ==> !inputs[k].NewQuestionEvent?
  }

  function Connects(inputs: seq<Input>): nat {
    if inputs == [] then 0 else (if inputs[0].ConnectEvent? then 1 else 0) + Connects(inputs[1..])
  }

  function GetQuestions(msgs: seq<Message>): nat {
    if msgs == [] then 0 else (if msgs[0].GetQuestion? then 1 else 0) + GetQuestions(msgs[1..])
  }

  /** The `submitAnswer` messages in a log. */
  function Submissions(msgs: seq<Message>): nat {
    if msgs == [] then 0 else (if msgs[0].SubmitAnswer? then 1 else 0) + Submissions(msgs[1..])
  }

  /** The `submitAnswer` messages whose answer is truthy, i.e. those that lock the guard. */
  function LockingSubmissions(msgs: seq<Message>): nat {
    if msgs == [] then 0
    else (if msgs[0].SubmitAnswer? && Truthy(msgs[0].answer) then 1 else 0) + LockingSubmissions(msgs[1..])
  }

  /** The answer of the last `answerSubmitted` event for `player`, or `prior` if there is none. */
  function LastAnswer(inputs: seq<Input>, player: string, prior: Value): Value
    decreases |inputs|
  {
    if inputs == [] then prior
    else
      var last := inputs[|inputs| - 1];
      if last.AnswerSubmittedEvent? && last.player == player then last.answer
      else LastAnswer(inputs[..|inputs| - 1], player, prior)
  }

  /** The roster of the last `players` event, or `prior` if there is none. */
  function LastRoster(inputs: seq<Input>, prior: seq<string>): seq<string>
    decreases |inputs|
  {
    if inputs == [] then prior
    else
      var last := inputs[|inputs| - 1];
      if last.PlayersEvent? then last.roster else LastRoster(inputs[..|inputs| - 1], prior)
  }

  /** The table of the last `scores` event, or `prior` if there is none. */
  function LastLedger(inputs: seq<Input>, prior: map<string, int>): map<string, int>
    decreases |inputs|
  {
    if inputs == [] then prior
    else
      var last := inputs[|inputs| - 1];
      if last.ScoresEvent? then last.ledger else LastLedger(inputs[..|inputs| - 1], prior)
  }

  lemma TailWithinOneQuestion(inputs: seq<Input>)
    requires inputs != [] && WithinOneQuestion(inputs)
    ensures WithinOneQuestion(inputs[1..])
  {
    forall k | 0 <= k < |inputs| - 1 ensures !inputs[1..][k].NewQuestionEvent? {
      assert inputs[1..][k] == inputs[k + 1];
    }
  }

  /** Processing `a` then `b` is processing `a + b`; the logs concatenate. */
  lemma {:induction false} RunComposes(s: State, a: seq<Input>, b: seq<Input>)
    ensures Run(s, a + b).state == Run(Run(s, a).state, b).state
    ensures Run(s, a + b).sent == Run(s, a).sent + Run(Run(s, a).state, b).sent
    decreases |a|
  {
    if a == [] {
      assert a + b == b;
    } else {
      assert (a + b)[0] == a[0];
      assert (a + b)[1..] == a[1..] + b;
      RunComposes(Apply(s, a[0]).state, a[1..], b);
    }
  }

  /** Processing `inputs` followed by one more input `i`. */
  lemma RunSnoc(s: State, inputs: seq<Input>, i: Input)
    ensures Run(s, inputs + [i]).state == Apply(Run(s, inputs).state, i).state
    ensures Run(s, inputs + [i]).sent == Run(s, inputs).sent + Apply(Run(s, inputs).state, i).sent
  {
    RunComposes(s, inputs, [i]);
    assert [i][1..] == [];
  }

  /** Every `connect` emits exactly one `getQuestion`, and nothing else does. */
  lemma {:induction false} OneGetQuestionPerConnect(s: State, inputs: seq<Input>)
    ensures GetQuestions(Run(s, inputs).sent) == Connects(inputs)
    decreases |inputs|
  {
    if inputs != [] {
      var first := Apply(s, inputs[0]);
      var rest := Run(first.state, inputs[1..]);
      OneGetQuestionPerConnect(first.state, inputs[1..]);
      assert Run(s, inputs).sent == first.sent + rest.sent;
      if first.sent == [] {
        assert first.sent + rest.sent == rest.sent;
        assert !inputs[0].ConnectEvent?;
      } else {
        assert first.sent == [first.sent[0]];
        assert (first.sent + rest.sent)[0] == first.sent[0];
        assert (first.sent + rest.sent)[1..] == rest.sent;
        assert first.sent[0].GetQuestion? <==> inputs[0].ConnectEvent?;
      }
      assert Connects(inputs) == (if inputs[0].ConnectEvent? then 1 else 0) + Connects(inputs[1..]);
    }
  }

  /** Within one question at most one locking answer is emitted, and none
      once the guard is closed. */
  lemma {:induction false} AtMostOneLockingSubmission(s: State, inputs: seq<Input>)
    requires WithinOneQuestion(inputs)
    ensures LockingSubmissions(Run(s, inputs).sent) <= if CanSubmit(s) then 1 else 0
    decreases |inputs|
  {
    if inputs != [] {
      var first := Apply(s, inputs[0]);
      var rest := Run(first.state, inputs[1..]);
      TailWithinOneQuestion(inputs);
      AtMostOneLockingSubmission(first.state, inputs[1..]);
      assert Run(s, inputs).sent == first.sent + rest.sent;
      if first.sent == [] {
        assert first.sent + rest.sent == rest.sent;
        assert CanSubmit(first.state) == CanSubmit(s);
      } else {
        assert first.sent == [first.sent[0]];
        assert (first.sent + rest.sent)[0] == first.sent[0];
        assert (first.sent + rest.sent)[1..] == rest.sent;
        if first.sent[0].SubmitAnswer? {
          assert CanSubmit(s) && (Truthy(first.sent[0].answer) <==> !CanSubmit(first.state));
        } else {
          assert first.state == s;
        }
      }
    }
  }

  /** Once the guard is closed, no `submitAnswer` of any kind is emitted and the
      selection stays as it is until the next question. */
  lemma {:induction false} ClosedGuardIsSilent(s: State, inputs: seq<Input>)
    requires WithinOneQuestion(inputs)
    requires !CanSubmit(s)
    ensures Submissions(Run(s, inputs).sent) == 0
    ensures Run(s, inputs).state.selectedAnswer == s.selectedAnswer
    decreases |inputs|
  {
    if inputs != [] {
      var first := Apply(s, inputs[0]);
      var rest := Run(first.state, inputs[1..]);
      assert first.state.selectedAnswer == s.selectedAnswer;
      TailWithinOneQuestion(inputs);
      ClosedGuardIsSilent(first.state, inputs[1..]);
      assert Run(s, inputs).sent == first.sent + rest.sent;
      if first.sent == [] {
        assert first.sent + rest.sent == rest.sent;
      } else {
        assert first.sent == [GetQuestion];
        assert (first.sent + rest.sent)[0] == GetQuestion;
        assert (first.sent + rest.sent)[1..] == rest.sent;
      }
    }
  }

  /** From a `newQuestion` event up to the next one, at most one locking answer
      is emitted, whatever state preceded it. */
  lemma AtMostOneLockingSubmissionPerQuestion(s: State, q: Nullable<Question>, inputs: seq<Input>)
    requires WithinOneQuestion(inputs)
    ensures LockingSubmissions(Run(s, [NewQuestionEvent(q)] + inputs).sent) <= 1
  {
    RunComposes(s, [NewQuestionEvent(q)], inputs);
    var mid := Run(s, [NewQuestionEvent(q)]);
    assert [NewQuestionEvent(q)][1..] == [];
    assert Run(ReceiveQuestion(s, q), []) == Step(ReceiveQuestion(s, q), []);
    assert mid == Step(ReceiveQuestion(s, q), []);
    assert Run(s, [NewQuestionEvent(q)] + inputs).sent == Run(mid.state, inputs).sent;
    AtMostOneLockingSubmission(mid.state, inputs);
  }

  /** Within one question, each player's recorded answer is the one carried by
      the last `answerSubmitted` event for that player. */
  lemma {:induction false} AnswersLastWriteWins(s: State, inputs: seq<Input>, player: string)
    requires WithinOneQuestion(inputs)
    ensures Get(Run(s, inputs).state.answers, player) == LastAnswer(inputs, player, Get(s.answers, player))
    decreases |inputs|
  {
    if inputs != [] {
      var init := inputs[..|inputs| - 1];
      var last := inputs[|inputs| - 1];
      assert inputs == init + [last];
      RunSnoc(s, init, last);
      assert WithinOneQuestion(init) by {
        forall k | 0 <= k < |init| ensures !init[k].NewQuestionEvent? {
          assert init[k] == inputs[k];
        }
      }
      AnswersLastWriteWins(s, init, player);
    }
  }

  /** The roster is always the one carried by the last `players` event. */
  lemma {:induction false} RosterIsLastReceived(s: State, inputs: seq<Input>)
    ensures Run(s, inputs).state.players == LastRoster(inputs, s.players)
    decreases |inputs|
  {
    if inputs != [] {
      var init := inputs[..|inputs| - 1];
      assert inputs == init + [inputs[|inputs| - 1]];
      RunSnoc(s, init, inputs[|inputs| - 1]);
      RosterIsLastReceived(s, init);
    }
  }

  /** The score table is always the one carried by the last `scores` event. */
  lemma {:induction false} ScoresAreLastReceived(s: State, inputs: seq<Input>)
    ensures Run(s, inputs).state.scores == LastLedger(inputs, s.scores)
    decreases |inputs|
  {
    if inputs != [] {
      var init := inputs[..|inputs| - 1];
      assert inputs == init + [inputs[|inputs| - 1]];
      RunSnoc(s, init, inputs[|inputs| - 1]);
      ScoresAreLastReceived(s, init);
    }
  }

  /** The loading screen stays up until a `newQuestion` event arrives. */
  lemma {:induction false} LoadingUntilFirstQuestion(s: State, inputs: seq<Input>)
    requires ShowsLoading(s)
    requires WithinOneQuestion(inputs)
    ensures ShowsLoading(Run(s, inputs).state)
    decreases |inputs|
  {
    if inputs != [] {
      LoadingUntilFirstQuestion(Apply(s, inputs[0]).state, inputs[1..]);
    }
  }

  /** The guard tests truthiness, so choosing the empty-string option does not
      lock it: two `submitAnswer` messages go out for the same question. */
  lemma EmptyOptionDoesNotLock(q: Question)
    ensures var r := Run(Initial(), [NewQuestionEvent(Ref(q)), ChooseOption(Str("")), ChooseOption(Str("B"))]);
            r.sent == [SubmitAnswer(Str("")), SubmitAnswer(Str("B"))] && r.state.selectedAnswer == Str("B")
  {
    var s0 := Initial();
    var s1 := ReceiveQuestion(s0, Ref(q));
    var s2 := s1.(selectedAnswer := Str(""));
    var s3 := s1.(selectedAnswer := Str("B"));
    var inputs := [NewQuestionEvent(Ref(q)), ChooseOption(Str("")), ChooseOption(Str("B"))];
    assert Run(s3, inputs[3..]) == Step(s3, []);
    assert Apply(s2, inputs[2]) == Step(s3, [SubmitAnswer(Str("B"))]);
    assert Run(s2, inputs[2..]) == Step(s3, [SubmitAnswer(Str("B"))]);
    assert Apply(s1, inputs[1]) == Step(s2, [SubmitAnswer(Str(""))]);
    assert Run(s1, inputs[1..]) == Step(s3, [SubmitAnswer(Str("")), SubmitAnswer(Str("B"))]);
  }
}
