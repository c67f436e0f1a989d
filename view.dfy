/** What the component renders, as pure functions of its state: the loading
    screen, the answer buttons and their disabled flag, and one roster line per
    player with the score shown and the "answered" marker. */
module View {
  import opened JsValues
  import opened Session

  datatype Button = Button(caption: Value, disabled: bool)
  datatype RosterLine = RosterLine(player: string, score: Value, marker: string)
  datatype Screen = Loading | Board(prompt: Value, buttons: seq<Button>, roster: seq<RosterLine>)

  const AnsweredSuffix := " (answered)"

  /** `if (!question)`: the loading screen replaces everything else. */
  function ShowsLoading(s: State): (r: bool)
    ensures r <==> s.question == NullRef
  {
    !RefTruthy(s.question)
  }

  /** `disabled={!!selectedAnswer}` on every option button. */
  function ButtonsDisabled(s: State): (r: bool)
    ensures r <==> !CanSubmit(s)
  {
    Not(Not(s.selectedAnswer)).b
  }

  /** `scores[player] || 0`: the score shown for a roster player. */
  function DisplayedScore(s: State, player: string): (r: Value)
    ensures r == Num(if player in s.scores then s.scores[player] else 0)
  {
    Or(GetNum(s.scores, player), Num(0))
  }

  /** `answers[player] && " (answered)"`: the marker text after a roster player.
      A falsy recorded answer renders as itself, so a recorded `0` shows "0". */
  function AnsweredMarker(s: State, player: string): (r: string)
    ensures r == AnsweredSuffix <==> Truthy(Get(s.answers, player))
    ensures r == "0" <==> Get(s.answers, player) == Num(0)
    ensures !Truthy(Get(s.answers, player)) && Get(s.answers, player) != Num(0) ==> r == ""
  {
    RenderText(And(Get(s.answers, player), Str(AnsweredSuffix)))
  }

  /** `players.map(...)`: one line per roster entry, in roster order. */
  function Roster(s: State): (r: seq<RosterLine>)
    ensures |r| == |s.players|
    ensures forall k :: 0 <= k < |r| ==>
              && r[k].player == s.players[k]
              && r[k].score == Num(if s.players[k] in s.scores then s.scores[s.players[k]] else 0)
              && r[k].marker == AnsweredMarker(s, s.players[k])
    // a corollary of the clause above and AnsweredMarker's contract, stated for readers
    ensures forall k :: 0 <= k < |r| ==>
              (r[k].marker == AnsweredSuffix <==> Truthy(Get(s.answers, s.players[k])))
  {
    seq(|s.players|, k requires 0 <= k < |s.players| =>
      RosterLine(s.players[k], DisplayedScore(s, s.players[k]), AnsweredMarker(s, s.players[k])))
  }

  /** The whole rendered screen. */
  function Render(s: State): (r: Screen)
    ensures r.Loading? <==> s.question == NullRef
    ensures r.Board? ==> r.prompt == s.question.obj.prompt && r.roster == Roster(s)
    ensures r.Board? ==> |r.buttons| == |s.question.obj.options|
    ensures r.Board? ==> forall k :: 0 <= k < |r.buttons| ==>
              r.buttons[k].caption == s.question.obj.options[k] && (r.buttons[k].disabled <==> !CanSubmit(s))
  {
    if ShowsLoading(s) then Loading
    else
      var q := s.question.obj;
      var disabled := ButtonsDisabled(s);
      Board(q.prompt,
            seq(|q.options|, k requires 0 <= k < |q.options| => Button(q.options[k], disabled)),
            Roster(s))
  }

  /** The disabled flag and the guard of `submitAnswer` agree: a click on an
      option has an effect exactly when the buttons are enabled. */
  lemma DisabledExactlyWhenGuardRefuses(s: State, option: Value)
    ensures ButtonsDisabled(s) <==> Apply(s, ChooseOption(option)).sent == []
    ensures ButtonsDisabled(s) ==> Apply(s, ChooseOption(option)).state == s
    ensures !ButtonsDisabled(s) ==> Apply(s, ChooseOption(option)).state.selectedAnswer == option
  {
  }
}
