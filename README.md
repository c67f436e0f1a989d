# Trivia client session model

This project models the client side of the multiplayer trivia game: the React component `TriviaGame` in `src/TriviaGame.jsx`. The component keeps five pieces of state:

- the player roster;
- the current question, or `null`;
- the answer this client selected;
- the score table;
- the answers other players were seen to submit.

Four inbound socket events replace or merge that state: `players`, `scores`, `newQuestion` and `answerSubmitted`. A fifth event, `connect`, and the user's click on an option (`submitAnswer`) emit outbound socket messages. The guard on `submitAnswer` lets at most one truthy choice through between two `newQuestion` events. A falsy choice goes through without closing the guard, and every `newQuestion` reopens it, even one that repeats the same question. A small render layer reads the state.

Modules:

- `JsValues` (`js_values.dfy`) holds the JavaScript value semantics the component depends on:
  - ToBoolean truthiness (`Truthy`);
  - the `!`, `||` and `&&` operators;
  - property reads that yield `undefined`;
  - the text React renders for a child value.
- `Session` (`session.dfy`) is the state machine on values:
  - `State` holds the five fields;
  - `Message` is an outbound socket message;
  - `Input` is one socket event or one click;
  - `Apply` processes one input atomically;
  - `Run` processes a sequence of inputs in arrival order.
- `Component` (`component.dfy`) is the component as a class `TriviaGame`:
  - its fields are the five state variables plus `outbox`, the log of everything passed to `socket.emit`;
  - each handler is a method that updates the fields in place;
  - each method's contract gives the full new state and ties it to `Session.Apply`.
- `View` (`view.dfy`) holds the rendered values:
  - the loading screen;
  - the disabled flag of the option buttons;
  - the score shown per player (`scores[player] || 0`);
  - the "answered" marker;
  - the whole screen.
- `Traces` (`traces.dfy`) holds lemmas over input sequences:
  - one `getQuestion` per `connect`;
  - at most one locking (truthy) submission between two `newQuestion` events;
  - silence once the guard is closed;
  - last write wins for answers, roster and scores;
  - loading until the first question;
  - the empty-string option quirk.

JavaScript values are the datatype `Value` (`undefined`, `null`, booleans, integer numbers, strings). The guard `!selectedAnswer` is ToBoolean, not a null test. So an option whose value is falsy is accepted: the empty string, or the number `0`. It is emitted, but it does not lock the guard, and this client can then submit again for the same question. The model keeps this behaviour (`Traces.EmptyOptionDoesNotLock`). It states the at-most-once property for locking (truthy) submissions only. `{answers[player] && " (answered)"}` renders the falsy recorded value itself, so a recorded answer `0` shows as "0" (`View.AnsweredMarker`).

## Model

| member | source | states |
|---|---|---|
| Session.Initial | src/TriviaGame.jsx:9-13 | the mounted component has no question (loading), a `null` selection (so an open guard), an empty roster, an empty score table and an empty answers object, in which every player's answer reads `undefined` |
| Session.ReceiveQuestion | src/TriviaGame.jsx:27-31 | after `newQuestion` the question is the payload, the selection is `null` so the guard is open again, every player's answer reads `undefined`; roster and scores are kept |
| Session.ReceiveAnswer | src/TriviaGame.jsx:32-34 | after `answerSubmitted` the sender's entry reads the new answer (last write wins), every other player's entry reads as before, the key set grows by the sender only, and all other fields are unchanged |
| Session.Choose | src/TriviaGame.jsx:37-42 | with the guard open the option becomes the selection and exactly one `submitAnswer {answer: option}` is emitted; with it closed nothing changes and nothing is emitted; afterwards the guard is open exactly when it was open and the option is falsy; no other field changes |
| Session.Apply | src/TriviaGame.jsx:15-42 | each input emits at most one message; `getQuestion` is emitted exactly on `connect`; a `submitAnswer` message exactly on a click with the guard open; `connect` changes no state; each field is changed only by the event that owns it (roster by `players`, scores by `scores`, question by `newQuestion`, selection by `newQuestion` or a click, answers by `newQuestion` or `answerSubmitted`) |
| Component.TriviaGame.constructor | src/TriviaGame.jsx:9-13 | the fields hold the initial `useState` values and nothing has been emitted |
| Component.TriviaGame.OnConnect | src/TriviaGame.jsx:16-19 | appends exactly one `getQuestion` to the outbound log and changes no state field |
| Component.TriviaGame.OnPlayers | src/TriviaGame.jsx:25 | replaces the roster with the payload; every other field and the log are unchanged |
| Component.TriviaGame.OnScores | src/TriviaGame.jsx:26 | replaces the score table with the payload; every other field and the log are unchanged |
| Component.TriviaGame.OnNewQuestion | src/TriviaGame.jsx:27-31 | installs the question, sets the selection to `null`, empties the answers; roster, scores and log are unchanged |
| Component.TriviaGame.OnAnswerSubmitted | src/TriviaGame.jsx:32-34 | the answers become the old answers with the sender's key overwritten; nothing else changes |
| Component.TriviaGame.SubmitAnswer | src/TriviaGame.jsx:37-42 | when the selection is falsy: selects the option and appends exactly one `submitAnswer {answer: option}`; when it is truthy: no state change and no message |
| Component.TriviaGame.Handle | src/TriviaGame.jsx:15-42 | dispatching any input to its handler moves the object to `Session.Apply`'s new state and appends exactly `Apply`'s messages |
| View.ShowsLoading | src/TriviaGame.jsx:44 | the loading screen is shown exactly when the question is `null` |
| View.ButtonsDisabled | src/TriviaGame.jsx:59 | the buttons are disabled exactly when the `submitAnswer` guard is closed |
| View.DisplayedScore | src/TriviaGame.jsx:72 | a roster player's score shows as `scores[player]` when present and 0 otherwise |
| View.AnsweredMarker | src/TriviaGame.jsx:73 | the marker " (answered)" appears exactly when the player's recorded answer is truthy; a recorded `0` renders "0"; any other falsy value renders nothing |
| View.Roster | src/TriviaGame.jsx:70-75 | one line per roster player in roster order; each line carries that player's displayed score (`scores[player]` or 0) and exactly that player's marker text from `AnsweredMarker`, which is the suffix exactly when the answer is truthy |
| View.Render | src/TriviaGame.jsx:44-79 | the loading screen exactly when the question is `null`; otherwise the prompt, one button per option in order, each button disabled exactly when the guard is closed, and the roster |
| View.DisabledExactlyWhenGuardRefuses | src/TriviaGame.jsx:37-59 | a click emits nothing exactly when the buttons are disabled; then the state is unchanged, otherwise the click selects its option |
| Traces.RunComposes | src/TriviaGame.jsx:15-35 | processing two input sequences one after the other equals processing their concatenation, and the outbound logs concatenate |
| Traces.OneGetQuestionPerConnect | src/TriviaGame.jsx:16-19 | over any input sequence, the number of `getQuestion` messages equals the number of `connect` events |
| Traces.AtMostOneLockingSubmission | src/TriviaGame.jsx:37-42 | with no `newQuestion` among the inputs, at most one truthy answer is emitted, and none if the guard was already closed |
| Traces.ClosedGuardIsSilent | src/TriviaGame.jsx:38-42 | once a truthy answer is selected, no `submitAnswer` of any kind is emitted and the selection is kept until the next question |
| Traces.AtMostOneLockingSubmissionPerQuestion | src/TriviaGame.jsx:27-42 | between a `newQuestion` event and the next one, at most one truthy answer is emitted, whatever state came before |
| Traces.AnswersLastWriteWins | src/TriviaGame.jsx:32-34 | within one question, each player's recorded answer is the one carried by the last `answerSubmitted` event for that player (a scan from the end), or the earlier value if there was none |
| Traces.RosterIsLastReceived | src/TriviaGame.jsx:25 | the roster is the payload of the last `players` event, or the earlier roster if none arrived |
| Traces.ScoresAreLastReceived | src/TriviaGame.jsx:26 | the score table is the payload of the last `scores` event, or the earlier table if none arrived |
| Traces.LoadingUntilFirstQuestion | src/TriviaGame.jsx:44 | the loading screen stays up until a `newQuestion` event arrives |
| Traces.EmptyOptionDoesNotLock | src/TriviaGame.jsx:38-40 | choosing the empty-string option emits it but leaves the guard open, so a second choice for the same question is emitted too |
| JsValues.NatToDecimalRoundTrip | src/TriviaGame.jsx:73 | the model's decimal text for a natural number reads back as that number; `NatToDecimal`'s own contract says the text is digits only, with no leading zero. At this line the only number that reaches the text is a recorded falsy `0`, which renders "0"; the model's text agrees with JavaScript's only below 10^21 |
| JsValues.FalsyValues | src/TriviaGame.jsx:38 | the values that `!` treats as false are exactly `undefined`, `null`, `false`, `0` and `""` |

## Left out

- The socket.io connection is not modelled: the server URL, the transport, and the `connect_error` handler, which only logs to the console (src/TriviaGame.jsx:6, 21-23). Emitted messages are kept only as an abstract outbound log.
- React mechanics are not modelled: `useEffect` subscription lifetime, `useState` batching and re-rendering. Each handler is an atomic step on the latest state. Because of this, the model does not capture two clicks landing before a re-render. Both of them would read the same stale `selectedAnswer`. The model also assumes each handler is registered exactly once. In the source, the effect has no cleanup (no `socket.off`) and `socket` is a module-level singleton (src/TriviaGame.jsx:6, 15-35). So every remount, and React's development-mode double run of effects, registers the handlers once more. Each `connect` then emits one `getQuestion` per registration. A `connect` that fires before the effect has run emits none. `Traces.OneGetQuestionPerConnect` is exact only under one registration.
- JSX layout, the Card and Button components, element keys and styling are left out, apart from the derived values in `View`.
- The server-side round protocol is not in this code and is not modelled: timers, countdown, scoring, reveal and the player registry.
- The question payload is reduced to its `question` and `options` fields. Any other field it carries, such as a correct answer, is never read by the component.
- Numbers are integers. NaN, negative zero and fractional scores are not modelled. Scores are a table of numbers, as the server sends them.
- Object property reads see own keys only. Keys inherited from `Object.prototype` (such as `constructor`) are not modelled. Player names are strings used directly as property keys.
- The options of a question are `Value`s; the button captions are left as those values and are not rendered to text.
- The model accepts a click (`ChooseOption`) in any state and with any value. That includes a click while the loading screen is up, when no button is rendered (src/TriviaGame.jsx:44), and a value that is not among `question.options` (src/TriviaGame.jsx:55-58). This over-approximates what a user can do. The safety lemmas still hold, because they cover every input.
- The `console.log` in the `connect` handler (src/TriviaGame.jsx:17) is console output and is not modelled, like the `connect_error` logging.
- A `newQuestion` payload is either `null` (`NullRef`) or a question object. Any other falsy payload, such as `undefined`, is treated as `null`. It shows the loading screen in the same way.
- `Value` has no objects or arrays. So a `data.answer` that is an object or an array cannot be represented. Such an answer would be truthy and would show the marker.
- NatToDecimal and RenderText write a number as plain decimal digits, at any size. JavaScript writes numbers from 10^21 up in exponent form (`1e+21`), and it loses integer precision beyond 2^53. Neither difference is modelled. Scores are kept as `Value`s in `RosterLine` and are not turned into text.
