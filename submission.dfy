/**
 * The rejection checks make_singles and make_doubles run, in their fixed order, before any
 * row is touched (tennis/views.py): identity checks, score checks, the row lookups of
 * get_object_or_404, then the rule that the submitter plays in the match.
 */
module Submission {
  import opened Wrappers
  import opened Models

  /** Why a submission is turned away. NotFound is the 404 of get_object_or_404. */
  datatype SubmitError =
    | SelfMatch
    | DuplicateWinner
    | DuplicateLoser
    | ZeroScore
    | NonWinningScore
    | NotFound
    | NotAParticipant

  /** The message flashed for each rejection; a 404 shows no message. */
  function SubmitMessage(e: SubmitError): (msg: Option<string>)
    ensures msg.None? <==> e == NotFound
  {
    match e
    case SelfMatch => Some("You selected the same person to win and lose. Try again.")
    case DuplicateWinner => Some("You selected the same person to win. Try again.")
    case DuplicateLoser => Some("You selected the same person to lose. Try again.")
    case ZeroScore => Some("You selected winner game 0. Try again.")
    case NonWinningScore => Some("Winner game is smaller than loser game. Try again.")
    case NotFound => None
    case NotAParticipant => Some("You can only report a match that you are involved in.")
  }

  /** The verdict of make_singles on cleaned form data submitted by `submitter`. */
  function SinglesVerdict(players: map<PlayerId, Player>, submitter: UserId,
                          winner: PlayerId, loser: PlayerId,
                          winnerGames: nat, loserGames: nat): (r: Outcome<SubmitError>)
    ensures r == Fail(SelfMatch) <==> winner == loser
    ensures r == Fail(ZeroScore) <==> winner != loser && winnerGames == 0
    ensures r == Fail(NonWinningScore) <==> winner != loser && 0 < winnerGames <= loserGames
    ensures r == Fail(NotFound) <==>
      winner != loser && loserGames < winnerGames && (winner !in players || loser !in players)
    ensures r == Fail(NotAParticipant) <==>
      winner != loser && loserGames < winnerGames && winner in players && loser in players
      && players[winner].user != submitter && players[loser].user != submitter
    ensures r == Pass <==>
      winner != loser && loserGames < winnerGames && winner in players && loser in players
      && (players[winner].user == submitter || players[loser].user == submitter)
    ensures r != Fail(DuplicateWinner) && r != Fail(DuplicateLoser)
  {
    if winner == loser then Fail(SelfMatch)
    else if winnerGames == 0 then Fail(ZeroScore)
    else if winnerGames <= loserGames then Fail(NonWinningScore)
    else if winner !in players then Fail(NotFound)
    else if loser !in players then Fail(NotFound)
    else if !(players[winner].user == submitter || players[loser].user == submitter) then
      Fail(NotAParticipant)
    else Pass
  }

  /** Some winner is also a loser. */
  predicate WinnerIsLoser(winner1: PlayerId, winner2: PlayerId, loser1: PlayerId, loser2: PlayerId) {
    winner1 == loser1 || winner1 == loser2 || winner2 == loser1 || winner2 == loser2
  }

  /** The verdict of make_doubles on cleaned form data submitted by `submitter`. */
  function DoublesVerdict(players: map<PlayerId, Player>, submitter: UserId,
                          winner1: PlayerId, winner2: PlayerId, loser1: PlayerId, loser2: PlayerId,
                          winnerGames: nat, loserGames: nat): (r: Outcome<SubmitError>)
    ensures r == Fail(SelfMatch) <==> WinnerIsLoser(winner1, winner2, loser1, loser2)
    ensures r == Fail(DuplicateWinner) <==>
      !WinnerIsLoser(winner1, winner2, loser1, loser2) && winner1 == winner2
    ensures r == Fail(DuplicateLoser) <==>
      !WinnerIsLoser(winner1, winner2, loser1, loser2) && winner1 != winner2 && loser1 == loser2
    ensures r == Fail(ZeroScore) <==>
      Distinct4(winner1, winner2, loser1, loser2) && winnerGames == 0
    ensures r == Fail(NonWinningScore) <==>
      Distinct4(winner1, winner2, loser1, loser2) && 0 < winnerGames <= loserGames
    ensures r == Fail(NotFound) <==>
      Distinct4(winner1, winner2, loser1, loser2) && loserGames < winnerGames
      && !(winner1 in players && winner2 in players && loser1 in players && loser2 in players)
    ensures r == Fail(NotAParticipant) <==>
      Distinct4(winner1, winner2, loser1, loser2) && loserGames < winnerGames
      && winner1 in players && winner2 in players && loser1 in players && loser2 in players
      && players[winner1].user != submitter && players[loser1].user != submitter
      && players[winner2].user != submitter && players[loser2].user != submitter
    ensures r == Pass <==>
      Distinct4(winner1, winner2, loser1, loser2) && loserGames < winnerGames
      && winner1 in players && winner2 in players && loser1 in players && loser2 in players
      && (players[winner1].user == submitter || players[loser1].user == submitter
          || players[winner2].user == submitter || players[loser2].user == submitter)
  {
    if WinnerIsLoser(winner1, winner2, loser1, loser2) then Fail(SelfMatch)
    else if winner1 == winner2 then Fail(DuplicateWinner)
    else if loser1 == loser2 then Fail(DuplicateLoser)
    else if winnerGames == 0 then Fail(ZeroScore)
    else if winnerGames <= loserGames then Fail(NonWinningScore)
    else if winner1 !in players then Fail(NotFound)
    else if winner2 !in players then Fail(NotFound)
    else if loser1 !in players then Fail(NotFound)
    else if loser2 !in players then Fail(NotFound)
    else if !(players[winner1].user == submitter || players[loser1].user == submitter
              || players[winner2].user == submitter || players[loser2].user == submitter) then
      Fail(NotAParticipant)
    else Pass
  }
}
