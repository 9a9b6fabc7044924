/** The score: cats caught by the cowboy (kills) and cats that reached the pen
    (saves). Only the collision pass changes the counters, each by one at a time. */
module Scoring {

  class Score {
    var kills: nat
    var saves: nat

    constructor ()
      ensures kills == 0 && saves == 0
    {
      kills := 0;
      saves := 0;
    }

    /** The net score shown to the player: saves raise it, kills lower it. */
    function GetScore(): int
      reads this
    {
      saves - kills
    }
  }
}
