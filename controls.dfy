/** The page state the game logic writes: the two buttons' `disabled` flags and
    the level and high-score read-outs. */
module Controls {

  class Page {
    var startDisabled: bool
    var replayDisabled: bool
    var shownLevel: int
    var shownHighScore: int

  }
}
