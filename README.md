# Simon round engine

A model of the game logic in `app.js`, a browser "Simon" game. The server holds the
game state (sequence, level, high score). The page plays the sequence back on four
coloured pads, collects the player's clicks and key presses, and submits them for
validation. This repeats until a round is rejected.

The model covers:

- `Difficulty`: `setGameSpeed`, the level → interval table.
- `Sound`: `playSound`'s two note tables (pad values, keys).
- `Palette`: the four pads and the `value` each pad element carries.
- `SequencePlayer`: `displayColors`' colour table, and `gameRound` as a timeline of
  timestamped events (ms from the start of playback). `GameRound` builds that timeline
  in a loop, one timer per position, as the source does. `Playback` is the timeline as a
  function. `Scheduled` describes the same events independently of how they are produced.
- `Input`: resolving a DOM event to a pad, and `playerRound`'s collector. The class
  `Collector` has the handler's resolution of an event to a pad, the accumulator, the
  expected count and an `attached` flag for the
  listeners. A ghost history of delivered events ties it to the pure `Run`.
- `Controls`: a `Page` class with the start and replay buttons' `disabled` flags and the
  displayed level and high score.
- `Game`: `playGame`, `mainGame`, `resetGame`, and what `onStart` and the replay button's handler do. The authority is passed in as oracles:
  - `fetch(k)` answers the game's k-th fetch of the game state (`None` for a failed request);
  - `validate(r)` gives the verdict on round r's submission;
  - `player(r)` gives the events the player produces in round r.

Behaviours the model pins down:

- An empty sequence schedules no timer, so `gameRound`'s promise never settles and the
  round waits forever with the replay button disabled.
- The collector compares the length with the expected count after every handled event,
  recognised or not. At level 0, an unrecognised first event settles the round with an
  empty array.
- A failed fetch inside `mainGame` makes `db.sequence` throw. The game stops. The start
  button stays enabled if this was the first round and disabled otherwise.
- A failed fetch in `resetGame` throws before anything is written.

## Model

| member | source | states |
|---|---|---|
| Difficulty.SetGameSpeed | app.js:236-243 | total on every integer level; the interval is one of 2000, 1500, 1000, 500, 350 |
| Difficulty.SpeedTiers | app.js:236-243 | each interval holds exactly on its band: ≤3 (zero and negatives included), 4–6, 7–9, 10–12, ≥13 |
| Difficulty.SpeedNonIncreasing | app.js:236-243 | a higher level never gets a longer interval |
| Difficulty.SpeedPositiveEven | app.js:173 | every interval is positive and even, so the half-interval revert is a whole number of ms strictly inside the step |
| Sound.Note | app.js:58-77 | a note is found exactly when the value is in the table for its input kind, and it is one of c4, d4, e4, f4 |
| Sound.TablesCoverSameNotes | app.js:61-75 | each table gives distinct notes to distinct entries, and both tables cover the same four notes |
| Input.KeyColor | app.js:192-210 | the key table is the inverse of the pad → key binding q/red, w/yellow, a/green, s/blue |
| Input.KeyAndPadSoundAlike | app.js:61-75 | a pad's key and the pad's click sound the same note (q/red→c4, w/yellow→d4, a/green→e4, s/blue→f4); different pads sound different notes |
| Input.ChoiceMatchesSound | app.js:186-216 | with the corrected resolution, an event chooses a pad exactly when it plays a note, and the note is that pad's |
| Input.AsWrittenAgreesOffPads | app.js:192-216 | the branch chain as written chooses the same pad as the corrected resolution for every click and every key-down whose target is not a pad |
| Input.FocusedPadTakesKeyDown | app.js:186-216 | as written, a key-down while a pad has focus chooses the focused pad: "w" on red chooses red but sounds d4, and "x" on red chooses red |
| Input.ChoiceAsWritten | app.js:192-216 | the handler's branch chain as written: a chosen pad has its key as the event's key or its value as the target's value; nothing is chosen exactly when neither the key is bound nor the target names a pad; when both do, the pad tested first in the order red, yellow, green, blue wins |
| Input.Choice | app.js:192-216 | the corrected resolution: a key-down chooses the pad bound to its key, a click the pad its target names (characterised further by ChoiceMatchesSound) |
| Input.HandlerNote | app.js:186-190 | definition; any note is one of c4, d4, e4, f4; characterised by ChoiceMatchesSound |
| Input.Handled | app.js:192-224 | definition of one handler run, for a given resolution of events to pads (the chain as written or the corrected one): append the chosen pad, if any, then detach when the length equals the count; characterised by RunPositive, RunNegative and RunZero |
| Input.Deliver | app.js:220-224 | definition: an event reaches the handler only while the listeners are attached; characterised by RunDetachedStable |
| Input.Run | app.js:179-232 | definition of the collector after a run of events from a fresh start, for a given resolution; characterised by RunPrefix, RunPositive, RunNegative, RunZero |
| Input.Recognised | app.js:192-216 | the pads a run of events chooses under a given resolution, in order; never more than the events |
| Input.CollectorsPartOnFocusedPad | app.js:192-224 | the collector as written and the corrected one part on a key-down while the red pad has focus: "w" gives red as written and yellow corrected; "x" settles the written collector with red while the corrected one keeps waiting |
| Input.RunPrefix | app.js:179-225 | for either resolution, at any count the collector holds a prefix of the recognised pads, and all of them while still attached |
| Input.RunPositive | app.js:179-225 | for either resolution, at a positive count, the collector holds the recognised pads in input order; once it has `expected` of them it detaches, holding exactly the first `expected` |
| Input.RunNegative | app.js:218-225 | for either resolution, at a negative count the collector never detaches and keeps every recognised pad |
| Input.RunZero | app.js:218-225 | for either resolution, at count zero the collector detaches with nothing if the first event is unrecognised, and never detaches if it is recognised |
| Input.RunDetachedStable | app.js:218-225 | for either resolution, once detached, no later event changes the collector |
| Input.RunDetachedHolds | app.js:218-225 | for either resolution, a detached collector handled at least one event and holds exactly the expected number of pads |
| Input.Collector.constructor | app.js:177-179 | a new collector starts with an empty array, its listeners attached and the given resolution |
| Input.Collector.Deliver | app.js:181-226 | while attached: disables replay (recognised or not), plays the event's note, appends exactly the pad its resolution chooses or nothing, and detaches when the length equals the count; once detached it changes nothing |
| Palette.Named | app.js:151-166 | the colour table's branch chain: a pad it picks has exactly the given value |
| Palette.Names | app.js:192-216 | the values pushed for a list of chosen pads: one per pad, in order, each that pad's value |
| Palette.NamesInjective | app.js:192-216 | distinct lists of pads push distinct lists of values, so a submission determines the pads chosen |
| Palette.NamedIffName | app.js:151-166 | the colour table's branch chain picks a pad exactly when the value is that pad's value ("red", "yellow", "green", "blue") |
| SequencePlayer.BackgroundsDistinct | app.js:151-167 | the eight original and active colours are pairwise distinct, so each highlight differs from the pad's resting colour and from every other pad's |
| SequencePlayer.Background | app.js:151-167 | definition: the original and active colour of each pad; characterised by BackgroundsDistinct |
| SequencePlayer.Display | app.js:147-175 | definition of displayColors as timed repaints; characterised by DisplayTouchesOnlyNamedPad |
| SequencePlayer.DisplayTouchesOnlyNamedPad | app.js:147-175 | for a pad value, only that pad is set to its active colour at once and back to its original colour at +speed/2; for any other value no pad is touched |
| SequencePlayer.Step | app.js:137-142 | definition of the timer callback of one position: its repaints, and completion after one more interval for the last position; characterised by StepMembers |
| SequencePlayer.Steps | app.js:136-143 | definition of the callbacks of the first k positions in order; characterised by StepsStructure |
| SequencePlayer.Playback | app.js:134-145 | definition of gameRound's whole timeline; characterised by PlaybackMembers, PlaybackInOrder, PlaybackCompletion |
| SequencePlayer.GameRound | app.js:134-145 | the loop's timers produce exactly the playback timeline |
| SequencePlayer.PlaybackMembers | app.js:134-145 | an event is in the timeline exactly when it is scheduled: position i's highlight at i·speed, its restore at i·speed+speed/2, and completion for the last position at n·speed |
| SequencePlayer.PlaybackInOrder | app.js:134-145 | the timeline never goes back in time or in position; with a positive interval each position's events come strictly before the next position's |
| SequencePlayer.PlaybackCompletion | app.js:134-145 | an empty sequence schedules nothing, so it never completes; otherwise completion is the single last event, at n·speed, after every repaint |
| SequencePlayer.ThreeStepScenario | app.js:134-175 | red, yellow, green at 2000 ms: highlights at 0, 2000, 4000; restores at 1000, 3000, 5000; completion at 6000 |
| Game.RoundOf | app.js:119-132 | definition of how playGame settles; characterised by EchoRound and RoundSettledHandledInput, and tied to PlayGame by its contract |
| Game.PlayGame | app.js:119-132 | replay is disabled during playback and enabled when input opens. Settles with null exactly when validation returns null and 1 otherwise. Waits forever when the sequence is empty or the input never completes |
| Game.EchoRound | app.js:119-132 | against an authority that accepts exactly its own sequence, a round is accepted exactly when the player's first `level` recognised pads spell it, rejected when they differ, and waits while there are fewer; an accepted round's pads are the only pads that spell the sequence |
| Game.RoundSettledHandledInput | app.js:218-224 | a round that settles had a non-empty sequence, handled at least one event, and submitted exactly `level` pads |
| Game.GameFrom | app.js:93-108 | definition of mainGame's loop from round r with bounded fuel; characterised by GameOverIff and GameRunningIff, and tied to MainGame by its contract |
| Game.GameOverIff | app.js:93-108 | the loop ends after k rounds exactly when round k−1 was rejected and all earlier rounds were accepted |
| Game.GameRunningIff | app.js:93-108 | the loop keeps going through every observed round exactly when each was accepted |
| Game.OnStart | app.js:27-32 | on a successful fetch, shows its level and high score; on a failed fetch, writes nothing; never touches the buttons |
| Game.Replay | app.js:34-38 | replays the freshly fetched sequence at its level's speed, without collecting input; a failed fetch plays nothing |
| Game.ResetGame | app.js:110-117 | on a successful fetch, shows its level and high score and enables start; on a failed fetch, writes nothing |
| Game.MainRound | app.js:96-104 | a failed fetch writes nothing and yields no result; otherwise the fetched level and high score are shown, start is disabled and the result is the round's. Replay ends disabled once the round settles; while the round waits, replay is enabled only if input opened and nothing was pressed |
| Game.MainGame | app.js:93-117 | runs rounds while the last result is non-null, disabling start every iteration. On exit, resetGame enables start and shows a fresh fetch. A failed fetch stops the game, leaving start as it was in round 0 and disabled after |

## Left out

- The HTTP requests (`getGameStateFromDb`, `isValidRound`), with their alerts and console logging. They are the oracles `fetch` and `validate`.
- Tone.js synthesiser construction, the timbre selector, and `triggerAttackRelease`. Only the note lookup is modelled.
- Sound.Note: returns no note for a value outside the four entries. It does not model JavaScript's object lookup finding inherited properties (such as `"constructor"`), or what the synthesiser does with `undefined`.
- DOM element lookup, `innerText` writes (modelled as integer fields of `Page`), and the 50%/100% opacity flash with its 250 ms revert. The collector reports only which pad it flashes.
- Wall-clock timing: `setTimeout`, promises and the 750 ms pre-round delay. Time is an integer timestamp in the playback timeline. `speed / 2` is integer division, which matches how a timer delay is truncated to a whole millisecond.
- The listener registration in `onStart` (`addEventListener` on the two buttons). OnStart and Replay model what the handlers do, not the wiring or the page's initial button state, which lives in the HTML.
- A replay started while a round is still being played back or collected: the interleaving of the two sets of timers is concurrency, so Replay is modelled on its own.
- The dead write `scoreValue = 0` in `playGame`. `resetGame` is not awaited by `mainGame`; the model runs it to completion before `MainGame` returns. `mainGame`'s return value 0 is not modelled.
- MainGame: observes at most `maxRounds` rounds (a fuel bound). A game whose rounds all succeed runs forever in the source, and the model reports `Running` after the bound.
- Levels that are not integers (the authority's JSON could send any number); the model takes `level` as an integer.
- Game.RoundOf: builds the collector with the corrected `Choice`, not the branch chain as written (see Findings). The collector as written is `Input.Run` with `ChoiceAsWritten`, and every `Input.Run*` lemma holds for it too.
- Game.PlayGame: creates its `Collector` with the corrected `Choice`, for the same reason; `Game.MainRound` and `Game.MainGame` inherit this.
- A validation request that fails without any response: `error.response.data.message` then throws inside the catch, so `isValidRound` rejects instead of returning null, `mainGame` leaves before `resetGame()` and start stays disabled. The oracle `validate` answers only a state or null, so the model turns every failed validation into a rejected round followed by resetGame.
- Timer delays are unbounded integers. Browsers hold a `setTimeout` delay in 32 bits, so a delay above 2^31 − 1 ms fires at once; for sequences of more than about 1.07 million positions at 2000 ms the source's timers no longer keep the order PlaybackInOrder states.

## Findings

| source | as written | input that shows it | evidently intended | confidence | as-written member | corrected member |
|---|---|---|---|---|---|---|
| app.js:192-216 | Every branch accepts `event.key === k` or `event.target.value === pad`, for clicks and key-downs alike. A key-down's target is the focused element. | Click the red pad, so the button keeps focus, then press "w" (or any key, even Space or Tab): red is appended while d4 sounds | A key-down is resolved by its key only and a click by the clicked pad only, so the note and the chosen pad always agree | medium; not executed; depends on the browser keeping focus on a clicked pad button | Input.ChoiceAsWritten and Input.Run applied to it (shown by Input.FocusedPadTakesKeyDown and Input.CollectorsPartOnFocusedPad) | Input.Choice (proved by Input.ChoiceMatchesSound and Input.AsWrittenAgreesOffPads) |
