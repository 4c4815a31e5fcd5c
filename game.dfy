/** The round orchestration: playGame (one round), mainGame (the loop of rounds)
    and resetGame.  The authority's answers and the player's events are oracles
    passed in as functions. */
module Game {
  import opened Wrappers
  import opened Palette
  import opened Difficulty
  import opened SequencePlayer
  import opened Input
  import opened Controls

  /** The authority's game state as fetched. */
  datatype GameState = GameState(sequence: seq<string>, level: int, highScore: int)

  /** Where a round that never settles is waiting. */
  datatype Phase = AtPlayback | AtInput

  /** How playGame settles: 1, null, or never. */
  datatype RoundResult = Accepted | Rejected | Stalled(phase: Phase)

  /** The whole outcome of mainGame, as far as `fuel` rounds are observed. */
  datatype GameOutcome =
    | Over(rounds: nat)                   // the loop exited after a rejected round; resetGame ran
    | Crashed(round: nat)                 // the fetch before this round failed; `db.sequence` throws
    | Waiting(round: nat, phase: Phase)   // this round never settles
    | Running(rounds: nat)                // every observed round was accepted

  /** What playGame(sequence, level) settles with when the player produces `events`
      and the authority answers `validate`. */
  function RoundOf(sequence: seq<string>, level: int, events: seq<InputEvent>,
                   validate: seq<Color> -> Option<GameState>): RoundResult
  {
    if |sequence| == 0 then Stalled(AtPlayback)
    else
      var c := Run(Choice, level, events);
      if c.attached then Stalled(AtInput)
      else if validate(c.choices).None? then Rejected
      else Accepted
  }

  /** playGame: disable replay for playback, re-enable it before collecting input,
      submit what was collected, and settle with 1 (Accepted) or null (Rejected). */
  method PlayGame(page: Page, gameArray: seq<string>, scoreValue: int, events: seq<InputEvent>,
                  validate: seq<Color> -> Option<GameState>)
    returns (result: RoundResult, ghost schedule: seq<Event>,
             ghost replayWhilePlaying: bool, ghost replayWhenInputOpens: bool)
    modifies page
    ensures result == RoundOf(gameArray, scoreValue, events, validate)
    ensures schedule == Playback(gameArray, SetGameSpeed(scoreValue))
    ensures replayWhilePlaying && (|gameArray| > 0 ==> !replayWhenInputOpens)
    ensures page.replayDisabled == (|gameArray| == 0 || |events| > 0)
    ensures page.startDisabled == old(page.startDisabled)
    ensures page.shownLevel == old(page.shownLevel) && page.shownHighScore == old(page.shownHighScore)
  {
    var gameSpeed := SetGameSpeed(scoreValue);
    page.replayDisabled := true;
    replayWhilePlaying := page.replayDisabled;
    replayWhenInputOpens := page.replayDisabled;
    schedule := GameRound(gameArray, gameSpeed);
    if |gameArray| == 0 {
      // No timer fires, so gameRound's promise never settles.
      return Stalled(AtPlayback), schedule, replayWhilePlaying, replayWhenInputOpens;
    }
    page.replayDisabled := false;
    replayWhenInputOpens := page.replayDisabled;
    var collector := new Collector(Choice, scoreValue, page);
    for i := 0 to |events|
      invariant collector.Valid() && collector.delivered == events[..i]
      invariant collector.page == page && collector.expected == scoreValue && collector.choose == Choice
      invariant page.replayDisabled == (i > 0)
      invariant page.startDisabled == old(page.startDisabled)
      invariant page.shownLevel == old(page.shownLevel) && page.shownHighScore == old(page.shownHighScore)
    {
      var _, _ := collector.Deliver(events[i]);
    }
    assert events[..|events|] == events;
    if collector.attached {
      // The length never reaches the level, so playerRound's promise never settles.
      return Stalled(AtInput), schedule, replayWhilePlaying, replayWhenInputOpens;
    }
    var validRound := validate(collector.choices);
    result := if validRound.None? then Rejected else Accepted;
  }

  /** The round-trip with an authority that accepts exactly the sequence it sent:
      a round is accepted exactly when the first `level` pads the player chooses
      spell the sequence, and rejected exactly when they are enough but differ. */
  lemma EchoRound(sequence: seq<string>, level: int, events: seq<InputEvent>,
                  validate: seq<Color> -> Option<GameState>)
    requires |sequence| > 0 && level >= 1
    requires forall x :: validate(x).Some? <==> Names(x) == sequence
    ensures var rec := Recognised(Choice, events);
            (RoundOf(sequence, level, events, validate) == Accepted <==>
               |rec| >= level && Names(rec[..level]) == sequence) &&
            (RoundOf(sequence, level, events, validate) == Rejected <==>
               |rec| >= level && Names(rec[..level]) != sequence) &&
            (RoundOf(sequence, level, events, validate) == Stalled(AtInput) <==> |rec| < level)
    ensures RoundOf(sequence, level, events, validate) == Accepted ==>
              forall x :: Names(x) == sequence ==> x == Recognised(Choice, events)[..level]
  {
    RunPositive(Choice, level, events);
    if RoundOf(sequence, level, events, validate) == Accepted {
      forall x | Names(x) == sequence ensures x == Recognised(Choice, events)[..level] {
        NamesInjective(x, Recognised(Choice, events)[..level]);
      }
    }
  }

  /** The answer of round `r`: None when its fetch fails, else how playGame settles. */
  function RoundAt(fetch: nat -> Option<GameState>, validate: nat -> seq<Color> -> Option<GameState>,
                   player: nat -> seq<InputEvent>, r: nat): Option<RoundResult>
  {
    match fetch(r)
    case None => None
    case Some(db) => Some(RoundOf(db.sequence, db.level, player(r), validate(r)))
  }

  /** mainGame from round `r` on, observing at most `fuel` more rounds. */
  function GameFrom(fetch: nat -> Option<GameState>, validate: nat -> seq<Color> -> Option<GameState>,
                    player: nat -> seq<InputEvent>, fuel: nat, r: nat): GameOutcome
    decreases fuel
  {
    if fuel == 0 then Running(r)
    else match RoundAt(fetch, validate, player, r)
      case None => Crashed(r)
      case Some(Accepted) => GameFrom(fetch, validate, player, fuel - 1, r + 1)
      case Some(Rejected) => Over(r + 1)
      case Some(Stalled(p)) => Waiting(r, p)
  }

  /** The game is over after round k - 1 exactly when that round was rejected and
      every round before it was accepted. */
  lemma {:induction false} GameOverIff(fetch: nat -> Option<GameState>,
                                       validate: nat -> seq<Color> -> Option<GameState>,
                                       player: nat -> seq<InputEvent>, fuel: nat, r: nat, k: nat)
    ensures GameFrom(fetch, validate, player, fuel, r) == Over(k) <==>
              r < k <= r + fuel &&
              (forall j :: r <= j < k - 1 ==> RoundAt(fetch, validate, player, j) == Some(Accepted)) &&
              RoundAt(fetch, validate, player, k - 1) == Some(Rejected)
  {
    if fuel > 0 && RoundAt(fetch, validate, player, r) == Some(Accepted) {
      GameOverIff(fetch, validate, player, fuel - 1, r + 1, k);
    }
  }

  /** The game keeps running through all observed rounds exactly when each was accepted. */
  lemma {:induction false} GameRunningIff(fetch: nat -> Option<GameState>,
                                          validate: nat -> seq<Color> -> Option<GameState>,
                                          player: nat -> seq<InputEvent>, fuel: nat, r: nat)
    ensures GameFrom(fetch, validate, player, fuel, r).Running? <==>
              forall j :: r <= j < r + fuel ==> RoundAt(fetch, validate, player, j) == Some(Accepted)
    ensures GameFrom(fetch, validate, player, fuel, r).Running? ==>
              GameFrom(fetch, validate, player, fuel, r).rounds == r + fuel
  {
    if fuel > 0 && RoundAt(fetch, validate, player, r) == Some(Accepted) {
      GameRunningIff(fetch, validate, player, fuel - 1, r + 1);
    }
  }

  /** The page shows the level and high score of a fetched state. */
  ghost predicate Shows(page: Page, db: Option<GameState>)
    reads page
  {
    db.Some? && page.shownLevel == db.value.level && page.shownHighScore == db.value.highScore
  }

  /** resetGame: fetch, show the scores and enable the start button.  A failed fetch
      makes `db.level` throw before anything is written. */
  method ResetGame(page: Page, db: Option<GameState>)
    modifies page
    ensures db.Some? ==> Shows(page, db) && !page.startDisabled
    ensures db.None? ==>
              page.startDisabled == old(page.startDisabled) &&
              page.shownLevel == old(page.shownLevel) && page.shownHighScore == old(page.shownHighScore)
    ensures page.replayDisabled == old(page.replayDisabled)
  {
    if db.Some? {
      page.shownLevel := db.value.level;
      page.shownHighScore := db.value.highScore;
      page.startDisabled := false;
    }
  }

  /** onStart: fetch and show the current level and high score.  A failed fetch
      makes `db.level` throw before anything is written.  The two listeners it
      attaches are MainGame and Replay. */
  method OnStart(page: Page, db: Option<GameState>)
    modifies page
    ensures db.Some? ==> Shows(page, db)
    ensures db.None? ==>
              page.shownLevel == old(page.shownLevel) && page.shownHighScore == old(page.shownHighScore)
    ensures page.startDisabled == old(page.startDisabled) && page.replayDisabled == old(page.replayDisabled)
  {
    if db.Some? {
      page.shownLevel := db.value.level;
      page.shownHighScore := db.value.highScore;
    }
  }

  /** The replay button's handler: fetch the state again and play its sequence back
      at the level's speed, without collecting input.  A failed fetch throws. */
  method Replay(db: Option<GameState>) returns (schedule: Option<seq<Event>>)
    ensures db.None? <==> schedule.None?
    ensures db.Some? ==> schedule == Some(Playback(db.value.sequence, SetGameSpeed(db.value.level)))
  {
    if db.None? {
      return None;
    }
    var events := GameRound(db.value.sequence, SetGameSpeed(db.value.level));
    schedule := Some(events);
  }

  /** One pass of mainGame's loop body on the fetched state `db`: show its scores,
      disable start and play the round.  A failed fetch makes `db.sequence` throw
      before anything is written. */
  method MainRound(page: Page, db: Option<GameState>, events: seq<InputEvent>,
                   validate: seq<Color> -> Option<GameState>)
    returns (result: Option<RoundResult>)
    modifies page
    ensures result == if db.None? then None
                      else Some(RoundOf(db.value.sequence, db.value.level, events, validate))
    ensures db.None? ==>
              page.startDisabled == old(page.startDisabled) &&
              page.replayDisabled == old(page.replayDisabled) &&
              page.shownLevel == old(page.shownLevel) && page.shownHighScore == old(page.shownHighScore)
    ensures db.Some? ==> page.startDisabled && Shows(page, db)
    ensures result.Some? && !result.value.Stalled? ==> page.replayDisabled
    ensures result.Some? && result.value.Stalled? ==>
              page.replayDisabled == (result.value.phase == AtPlayback || |events| > 0)
  {
    if db.None? {
      return None;
    }
    page.shownLevel := db.value.level;
    page.shownHighScore := db.value.highScore;
    page.startDisabled := true;
    var round, _, _, _ := PlayGame(page, db.value.sequence, db.value.level, events, validate);
    if !round.Stalled? {
      RoundSettledHandledInput(db.value.sequence, db.value.level, events, validate);
    }
    result := Some(round);
  }

  /** mainGame, observed for at most `maxRounds` rounds.  `fetch(k)` answers the
      k-th fetch of the game, `validate(r)` the authority's verdict on round r's
      submission and `player(r)` the events the player produces in round r. */
  method MainGame(page: Page, fetch: nat -> Option<GameState>,
                  validate: nat -> seq<Color> -> Option<GameState>,
                  player: nat -> seq<InputEvent>, maxRounds: nat)
    returns (outcome: GameOutcome)
    modifies page
    ensures outcome == GameFrom(fetch, validate, player, maxRounds, 0)
    ensures (outcome == Crashed(0) || outcome == Running(0)) ==>
              page.startDisabled == old(page.startDisabled) &&
              page.replayDisabled == old(page.replayDisabled) &&
              page.shownLevel == old(page.shownLevel) && page.shownHighScore == old(page.shownHighScore)
    ensures outcome.Over? && fetch(outcome.rounds).Some? ==>
              !page.startDisabled && page.replayDisabled && Shows(page, fetch(outcome.rounds))
    ensures outcome.Over? && fetch(outcome.rounds).None? ==>
              page.startDisabled && page.replayDisabled && Shows(page, fetch(outcome.rounds - 1))
    ensures outcome.Crashed? && outcome.round > 0 ==>
              page.startDisabled && page.replayDisabled && Shows(page, fetch(outcome.round - 1))
    ensures outcome.Running? && outcome.rounds > 0 ==>
              page.startDisabled && page.replayDisabled && Shows(page, fetch(outcome.rounds - 1))
    ensures outcome.Waiting? ==>
              page.startDisabled && Shows(page, fetch(outcome.round)) &&
              page.replayDisabled == (outcome.phase == AtPlayback || |player(outcome.round)| > 0)
  {
    var validGame := true;
    var r: nat := 0;
    while validGame && r < maxRounds
      invariant r <= maxRounds
      invariant validGame ==>
                  GameFrom(fetch, validate, player, maxRounds, 0) ==
                  GameFrom(fetch, validate, player, maxRounds - r, r)
      invariant !validGame ==> r > 0 && GameFrom(fetch, validate, player, maxRounds, 0) == Over(r)
      invariant r == 0 ==>
                  page.startDisabled == old(page.startDisabled) &&
                  page.replayDisabled == old(page.replayDisabled) &&
                  page.shownLevel == old(page.shownLevel) && page.shownHighScore == old(page.shownHighScore)
      invariant r > 0 ==> page.startDisabled && page.replayDisabled && Shows(page, fetch(r - 1))
      decreases maxRounds - r
    {
      // The 750 ms pre-round delay has no effect on the modelled state.
      var result := MainRound(page, fetch(r), player(r), validate(r));
      if result.None? {
        return Crashed(r);
      }
      if result.value.Stalled? {
        return Waiting(r, result.value.phase);
      }
      validGame := result.value.Accepted?;
      r := r + 1;
    }
    if validGame {
      return Running(r);
    }
    ResetGame(page, fetch(r));
    outcome := Over(r);
  }

  /** A round that settles has handled at least one event of the player. */
  lemma RoundSettledHandledInput(sequence: seq<string>, level: int, events: seq<InputEvent>,
                                 validate: seq<Color> -> Option<GameState>)
    requires RoundOf(sequence, level, events, validate) == Accepted ||
             RoundOf(sequence, level, events, validate) == Rejected
    ensures |sequence| > 0 && |events| > 0
    ensures |Run(Choice, level, events).choices| == level
  {
    RunDetachedHolds(Choice, level, events);
  }
}
