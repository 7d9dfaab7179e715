/**
 * The records of the tennis league (tennis/models.py): the Player row that carries a
 * player's counters, the Match row with its four role references, and the read-only
 * helpers defined on them.
 */
module Models {
  import opened Wrappers

  /** Primary keys. Django's AutoField hands them out counting up from 1. */
  type UserId = nat
  type PlayerId = nat
  type MatchId = nat
  type StadiumId = nat

  /** A calendar date, carried through unchanged (DateField). */
  datatype Date = Date(year: int, month: int, day: int)

  /** The two choices of Match.type_choice; the column itself is nullable. */
  datatype MatchType = Singles | Doubles

  /**
   * A Player row: the one-to-one link to its account and five IntegerFields.
   * The counters are plain integers: nothing in the database keeps them non-negative.
   */
  datatype Player = Player(
    user: UserId,
    gameWins: int,
    gameLosses: int,
    matchWins: int,
    matchLosses: int,
    point: int)

  /** A Match row: winner1/loser1 are mandatory, winner2/loser2 and the type are nullable. */
  datatype Match = Match(
    typeChoice: Option<MatchType>,
    matchDate: Date,
    stadium: StadiumId,
    winner1: PlayerId,
    winner2: Option<PlayerId>,
    loser1: PlayerId,
    loser2: Option<PlayerId>,
    winnerGames: nat,
    loserGames: nat)

  /** Four pairwise distinct player keys. */
  predicate Distinct4(a: PlayerId, b: PlayerId, c: PlayerId, d: PlayerId) {
    a != b && a != c && a != d && b != c && b != d && c != d
  }

  /** The derived standings field agrees with the game counters. */
  predicate PointConsistent(p: Player) {
    p.point == p.gameWins - p.gameLosses
  }

  /** Every player of a table satisfies the point invariant. */
  predicate AllPointsConsistent(players: map<PlayerId, Player>) {
    forall id :: id in players ==> PointConsistent(players[id])
  }

  /** The result of a win-percentage helper: "N/A", or the ratio that would be formatted. */
  datatype WinPercent = NotApplicable | Ratio(numerator: int, denominator: int)

  /** `Player(user=u)`: every counter takes its default of 0. */
  function NewPlayer(u: UserId): (r: Player)
    ensures r.user == u
    ensures r.gameWins == 0 && r.gameLosses == 0 && r.matchWins == 0 && r.matchLosses == 0
    ensures PointConsistent(r)
    ensures GameWinPercent(r) == NotApplicable && MatchWinPercent(r) == NotApplicable
  {
    Player(u, 0, 0, 0, 0, 0)
  }

  /** game_win_percent: "N/A" when no game has been counted, else wins over wins plus losses. */
  function GameWinPercent(p: Player): (r: WinPercent)
    ensures r == NotApplicable <==> p.gameWins + p.gameLosses == 0
    ensures r.Ratio? ==> r.numerator == p.gameWins && r.denominator == p.gameWins + p.gameLosses
  {
    if p.gameWins + p.gameLosses == 0 then NotApplicable
    else Ratio(p.gameWins, p.gameWins + p.gameLosses)
  }

  /** match_win_percent: the same split over the match counters. */
  function MatchWinPercent(p: Player): (r: WinPercent)
    ensures r == NotApplicable <==> p.matchWins + p.matchLosses == 0
    ensures r.Ratio? ==> r.numerator == p.matchWins && r.denominator == p.matchWins + p.matchLosses
  {
    if p.matchWins + p.matchLosses == 0 then NotApplicable
    else Ratio(p.matchWins, p.matchWins + p.matchLosses)
  }

  /** isSinglesType: true exactly for a stored 'SINGLES'; false for 'DOUBLES' and for null. */
  function IsSinglesType(m: Match): (r: bool)
    ensures r <==> m.typeChoice == Some(Singles)
    ensures m.typeChoice == Some(Doubles) ==> !r
    ensures m.typeChoice == None ==> !r
  {
    match m.typeChoice
    case Some(Singles) => true
    case _ => false
  }

  /** The row make_singles saves: type 'SINGLES', no second winner or loser. */
  function SinglesMatch(date: Date, stadium: StadiumId, winner: PlayerId, loser: PlayerId,
                        winnerGames: nat, loserGames: nat): (m: Match)
    ensures IsSinglesType(m)
    ensures m.matchDate == date && m.stadium == stadium
    ensures m.winner2 == None && m.loser2 == None
    ensures m.winner1 == winner && m.loser1 == loser
    ensures m.winnerGames == winnerGames && m.loserGames == loserGames
  {
    Match(Some(Singles), date, stadium, winner, None, loser, None, winnerGames, loserGames)
  }

  /** The row make_doubles saves: type 'DOUBLES' and all four role references set. */
  function DoublesMatch(date: Date, stadium: StadiumId, winner1: PlayerId, winner2: PlayerId,
                        loser1: PlayerId, loser2: PlayerId,
                        winnerGames: nat, loserGames: nat): (m: Match)
    ensures !IsSinglesType(m) && m.typeChoice == Some(Doubles)
    ensures m.matchDate == date && m.stadium == stadium
    ensures m.winner1 == winner1 && m.winner2 == Some(winner2)
    ensures m.loser1 == loser1 && m.loser2 == Some(loser2)
    ensures m.winnerGames == winnerGames && m.loserGames == loserGames
  {
    Match(Some(Doubles), date, stadium, winner1, Some(winner2), loser1, Some(loser2), winnerGames, loserGames)
  }
}
