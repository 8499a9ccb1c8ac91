/** The scoreboard operator's form state (Scorebini/Data/ScoreboardInputState.cs):
    two player records that can be swapped and whose scores can be reset. */
module ScoreboardInput {
  import opened Base

  /** `Commentator`: a name and a handle. */
  datatype Commentator = Commentator(name: string, handle: string)

  /** `ScoreboardPlayerState`: a player's shown name and score, edited in place. */
  class PlayerState {
    var name: Option<string>
    var score: int32

    /** `new()`: no name, score 0. */
    constructor()
      ensures name.None? && score == 0
    {
      name := None;
      score := 0;
    }
  }

  /** What the form shows about one player. */
  datatype PlayerView = PlayerView(name: Option<string>, score: int32)

  /** What the form shows: the fields of the state and of both players. */
  datatype InputView = InputView(
    challongeUrl: string,
    player1: PlayerView,
    player2: PlayerView,
    roundName: string,
    commentators: seq<Commentator>)

  /** The view after swapping the players. */
  function Swapped(v: InputView): (r: InputView)
    ensures r.player1 == v.player2 && r.player2 == v.player1
    ensures r.challongeUrl == v.challongeUrl && r.roundName == v.roundName && r.commentators == v.commentators
  {
    v.(player1 := v.player2, player2 := v.player1)
  }

  /** The view after zeroing both scores. */
  function ScoresReset(v: InputView): (r: InputView)
    ensures r.player1.score == 0 && r.player2.score == 0
    ensures r.player1.name == v.player1.name && r.player2.name == v.player2.name
    ensures r.challongeUrl == v.challongeUrl && r.roundName == v.roundName && r.commentators == v.commentators
  {
    v.(player1 := v.player1.(score := 0), player2 := v.player2.(score := 0))
  }

  /** Swapping twice restores the original assignment. */
  lemma SwapTwiceRestores(v: InputView)
    ensures Swapped(Swapped(v)) == v
  {
  }

  /** Resetting twice is the same as resetting once. */
  lemma ResetIdempotent(v: InputView)
    ensures ScoresReset(ScoresReset(v)) == ScoresReset(v)
  {
  }

  /** Resetting and swapping can be done in either order. */
  lemma SwapAndResetCommute(v: InputView)
    ensures Swapped(ScoresReset(v)) == ScoresReset(Swapped(v))
  {
  }

  /** `ScoreboardInputState`. */
  class ScoreboardInputState {
    var challongeUrl: string
    var player1: PlayerState
    var player2: PlayerState
    var roundName: string
    var commentators: seq<Commentator>

    /** The state as the form shows it. */
    function View(): InputView
      reads this, player1, player2
    {
      InputView(challongeUrl,
                PlayerView(player1.name, player1.score),
                PlayerView(player2.name, player2.score),
                roundName,
                commentators)
    }

    /** A new state: empty URL and round name, no commentators, and two
        separate fresh player records. */
    constructor()
      ensures challongeUrl == "" && roundName == "" && commentators == []
      ensures fresh(player1) && fresh(player2) && player1 != player2
      ensures View().player1 == PlayerView(None, 0) && View().player2 == PlayerView(None, 0)
    {
      challongeUrl := "";
      player1 := new PlayerState();
      player2 := new PlayerState();
      roundName := "";
      commentators := [];
    }

    /** `SwapPlayers`: exchanges the two player records themselves. */
    method SwapPlayers()
      modifies this
      ensures player1 == old(player2) && player2 == old(player1)
      ensures View() == Swapped(old(View()))
      ensures challongeUrl == old(challongeUrl) && roundName == old(roundName)
      ensures commentators == old(commentators)
    {
      var tmp := player1;
      player1 := player2;
      player2 := tmp;
    }

    /** `ResetScore`: writes 0 into both player records. */
    method ResetScore()
      modifies player1, player2
      ensures player1.score == 0 && player2.score == 0
      ensures player1.name == old(player1.name) && player2.name == old(player2.name)
      ensures View() == ScoresReset(old(View()))
    {
      player1.score := 0;
      player2.score := 0;
    }
  }
}
