/** The difficulty mapping: a level selects the playback interval in milliseconds. */
module Difficulty {

  /** setGameSpeed: total over every integer level, including zero and negatives. */
  function SetGameSpeed(level: int): (ms: nat)
    ensures ms in {2000, 1500, 1000, 500, 350}
  {
    if level <= 0 then 2000
    else if level <= 3 then 2000
    else if level <= 6 then 1500
    else if level <= 9 then 1000
    else if level <= 12 then 500
    else 350
  }

  /** Each interval is selected by exactly one band of levels. */
  lemma SpeedTiers(level: int)
    ensures SetGameSpeed(level) == 2000 <==> level <= 3
    ensures SetGameSpeed(level) == 1500 <==> 4 <= level <= 6
    ensures SetGameSpeed(level) == 1000 <==> 7 <= level <= 9
    ensures SetGameSpeed(level) == 500 <==> 10 <= level <= 12
    ensures SetGameSpeed(level) == 350 <==> 13 <= level
  {
  }

  /** A higher level never plays back more slowly. */
  lemma SpeedNonIncreasing(a: int, b: int)
    requires a <= b
    ensures SetGameSpeed(b) <= SetGameSpeed(a)
  {
  }

  /** Every interval is positive and even, so the half-interval revert of a pad
      is a whole number of milliseconds that ends before the next step begins. */
  lemma SpeedPositiveEven(level: int)
    ensures SetGameSpeed(level) > 0
    ensures SetGameSpeed(level) % 2 == 0
    ensures 0 < SetGameSpeed(level) / 2 < SetGameSpeed(level)
  {
  }
}
