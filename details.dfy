/**
 * The projection behind player_details (tennis/views.py): the matches a player appears in,
 * each paired with the flag telling whether that player won it.
 */
module Details {
  import opened Wrappers
  import opened Models

  /** The player fills one of the four roles of the match. */
  predicate Involves(m: Match, p: PlayerId) {
    m.winner1 == p || m.loser1 == p || m.winner2 == Some(p) || m.loser2 == Some(p)
  }

  /**
   * The lambda `x.winner1.id == p or x.winner2.id == p if x.winner2 is not None else
   * x.winner1.id == p`, which Python reads as a conditional whose first arm is the `or`.
   */
  function WonFlag(m: Match, p: PlayerId): (won: bool)
    ensures won <==> m.winner1 == p || m.winner2 == Some(p)
    ensures m.winner2.None? ==> (won <==> m.winner1 == p)
  {
    if m.winner2.Some? then m.winner1 == p || m.winner2.value == p
    else m.winner1 == p
  }

  /**
   * player_details: a 404 for an unknown player, otherwise the union of the four role filters,
   * each match id mapped to the won flag.
   */
  function PlayerDetails(players: map<PlayerId, Player>, matches: map<MatchId, Match>,
                         p: PlayerId): (r: Option<map<MatchId, bool>>)
    ensures r.None? <==> p !in players
    ensures r.Some? ==> forall id :: id in r.value <==> id in matches && Involves(matches[id], p)
    ensures r.Some? ==> forall id :: id in r.value ==>
              (r.value[id] <==> matches[id].winner1 == p || matches[id].winner2 == Some(p))
  {
    if p !in players then None
    else
      var ids := (set id | id in matches && matches[id].winner1 == p)
               + (set id | id in matches && matches[id].loser1 == p)
               + (set id | id in matches && matches[id].winner2 == Some(p))
               + (set id | id in matches && matches[id].loser2 == Some(p));
      Some(map id | id in ids :: WonFlag(matches[id], p))
  }

  /** In a match saved by make_singles, the flag is true for the winner and false for the loser. */
  lemma WonFlagOfRecordedSingles(date: Date, stadium: StadiumId, winner: PlayerId, loser: PlayerId,
                                 winnerGames: nat, loserGames: nat)
    requires winner != loser
    ensures var m := SinglesMatch(date, stadium, winner, loser, winnerGames, loserGames);
            WonFlag(m, winner) && !WonFlag(m, loser) && Involves(m, winner) && Involves(m, loser)
  {
  }

  /** In a match saved by make_doubles, the flag is true for both winners and false for both losers. */
  lemma WonFlagOfRecordedDoubles(date: Date, stadium: StadiumId,
                                 winner1: PlayerId, winner2: PlayerId, loser1: PlayerId, loser2: PlayerId,
                                 winnerGames: nat, loserGames: nat)
    requires Distinct4(winner1, winner2, loser1, loser2)
    ensures var m := DoublesMatch(date, stadium, winner1, winner2, loser1, loser2, winnerGames, loserGames);
            WonFlag(m, winner1) && WonFlag(m, winner2) && !WonFlag(m, loser1) && !WonFlag(m, loser2)
  {
  }
}
