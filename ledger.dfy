/**
 * The counter arithmetic of tennis/views.py: what make_singles, make_doubles and
 * delete_history do to the Player table. A table is a map from primary key to row; each
 * function follows the source's own order of loading rows and saving them back, so a row
 * loaded before another save of the same key overwrites that save.
 */
module Ledger {
  import opened Wrappers
  import opened Models

  /** A winner's row after recording: one more match won, the score added the winner's way round. */
  function ApplyWin(p: Player, winnerGames: nat, loserGames: nat): (r: Player)
    ensures r.user == p.user && r.matchLosses == p.matchLosses
    ensures r.matchWins == p.matchWins + 1
    ensures r.gameWins == p.gameWins + winnerGames && r.gameLosses == p.gameLosses + loserGames
    ensures PointConsistent(r)
    ensures PointConsistent(p) ==> r.point == p.point + (winnerGames - loserGames)
  {
    var q := p.(matchWins := p.matchWins + 1,
                gameWins := p.gameWins + winnerGames,
                gameLosses := p.gameLosses + loserGames);
    q.(point := q.gameWins - q.gameLosses)
  }

  /** A loser's row after recording: one more match lost, the score added the loser's way round. */
  function ApplyLoss(p: Player, winnerGames: nat, loserGames: nat): (r: Player)
    ensures r.user == p.user && r.matchWins == p.matchWins
    ensures r.matchLosses == p.matchLosses + 1
    ensures r.gameWins == p.gameWins + loserGames && r.gameLosses == p.gameLosses + winnerGames
    ensures PointConsistent(r)
    ensures PointConsistent(p) ==> r.point == p.point - (winnerGames - loserGames)
  {
    var q := p.(matchLosses := p.matchLosses + 1,
                gameWins := p.gameWins + loserGames,
                gameLosses := p.gameLosses + winnerGames);
    q.(point := q.gameWins - q.gameLosses)
  }

  /** delete_history on a winner's row. */
  function ReverseWin(p: Player, winnerGames: nat, loserGames: nat): (r: Player)
    ensures r.user == p.user && r.matchLosses == p.matchLosses
    ensures r.matchWins == p.matchWins - 1
    ensures r.gameWins == p.gameWins - winnerGames && r.gameLosses == p.gameLosses - loserGames
    ensures PointConsistent(r)
  {
    var q := p.(matchWins := p.matchWins - 1,
                gameWins := p.gameWins - winnerGames,
                gameLosses := p.gameLosses - loserGames);
    q.(point := q.gameWins - q.gameLosses)
  }

  /** delete_history on a loser's row. */
  function ReverseLoss(p: Player, winnerGames: nat, loserGames: nat): (r: Player)
    ensures r.user == p.user && r.matchWins == p.matchWins
    ensures r.matchLosses == p.matchLosses - 1
    ensures r.gameWins == p.gameWins - loserGames && r.gameLosses == p.gameLosses - winnerGames
    ensures PointConsistent(r)
  {
    var q := p.(matchLosses := p.matchLosses - 1,
                gameWins := p.gameWins - loserGames,
                gameLosses := p.gameLosses - winnerGames);
    q.(point := q.gameWins - q.gameLosses)
  }

  /** Reversing a win restores a row whose point was consistent; an inconsistent point comes back recomputed. */
  lemma ReverseWinUndoesApplyWin(p: Player, winnerGames: nat, loserGames: nat)
    ensures ReverseWin(ApplyWin(p, winnerGames, loserGames), winnerGames, loserGames)
            == p.(point := p.gameWins - p.gameLosses)
    ensures PointConsistent(p) ==>
            ReverseWin(ApplyWin(p, winnerGames, loserGames), winnerGames, loserGames) == p
  {
  }

  /** Reversing a loss restores a row whose point was consistent. */
  lemma ReverseLossUndoesApplyLoss(p: Player, winnerGames: nat, loserGames: nat)
    ensures ReverseLoss(ApplyLoss(p, winnerGames, loserGames), winnerGames, loserGames)
            == p.(point := p.gameWins - p.gameLosses)
    ensures PointConsistent(p) ==>
            ReverseLoss(ApplyLoss(p, winnerGames, loserGames), winnerGames, loserGames) == p
  {
  }

  /** Every key of a match's role references is a row of the table. */
  predicate RefsIn(m: Match, players: map<PlayerId, Player>) {
    m.winner1 in players && m.loser1 in players
    && (m.winner2.Some? ==> m.winner2.value in players)
    && (m.loser2.Some? ==> m.loser2.value in players)
  }

  /** Two tables agree on every key other than the given ones. */
  predicate SameExcept(a: map<PlayerId, Player>, b: map<PlayerId, Player>, touched: set<PlayerId>) {
    a.Keys == b.Keys && forall id :: id in a && id !in touched ==> b[id] == a[id]
  }

  /** Two tables link every row to the same account. */
  predicate SameUsers(a: map<PlayerId, Player>, b: map<PlayerId, Player>) {
    a.Keys == b.Keys && forall id :: id in a ==> b[id].user == a[id].user
  }

  /**
   * make_singles after its checks: both rows are loaded, updated, and saved loser first,
   * then winner.
   */
  function SinglesEffect(players: map<PlayerId, Player>, winner: PlayerId, loser: PlayerId,
                         winnerGames: nat, loserGames: nat): (r: map<PlayerId, Player>)
    requires winner in players && loser in players
    ensures SameExcept(players, r, {winner, loser}) && SameUsers(players, r)
    ensures AllPointsConsistent(players) ==> AllPointsConsistent(r)
  {
    var w := ApplyWin(players[winner], winnerGames, loserGames);
    var l := ApplyLoss(players[loser], winnerGames, loserGames);
    players[loser := l][winner := w]
  }

  /** For two distinct players, recording applies the winner's deltas to one and the loser's to the other. */
  lemma SinglesEffectDeltas(players: map<PlayerId, Player>, winner: PlayerId, loser: PlayerId,
                            winnerGames: nat, loserGames: nat)
    requires winner in players && loser in players && winner != loser
    ensures SinglesEffect(players, winner, loser, winnerGames, loserGames)[winner]
            == ApplyWin(players[winner], winnerGames, loserGames)
    ensures SinglesEffect(players, winner, loser, winnerGames, loserGames)[loser]
            == ApplyLoss(players[loser], winnerGames, loserGames)
  {
  }

  /** A singles match moves points from loser to winner and leaves their sum alone. */
  lemma SinglesZeroSum(players: map<PlayerId, Player>, winner: PlayerId, loser: PlayerId,
                       winnerGames: nat, loserGames: nat)
    requires winner in players && loser in players && winner != loser
    requires PointConsistent(players[winner]) && PointConsistent(players[loser])
    ensures var r := SinglesEffect(players, winner, loser, winnerGames, loserGames);
            r[winner].point == players[winner].point + (winnerGames - loserGames)
            && r[loser].point == players[loser].point - (winnerGames - loserGames)
            && r[winner].point + r[loser].point == players[winner].point + players[loser].point
  {
  }

  /**
   * make_doubles after its checks: the four rows are loaded, updated, and saved in the
   * order winner1, winner2, loser1, loser2.
   */
  function DoublesEffect(players: map<PlayerId, Player>, winner1: PlayerId, winner2: PlayerId,
                         loser1: PlayerId, loser2: PlayerId,
                         winnerGames: nat, loserGames: nat): (r: map<PlayerId, Player>)
    requires winner1 in players && winner2 in players && loser1 in players && loser2 in players
    ensures SameExcept(players, r, {winner1, winner2, loser1, loser2}) && SameUsers(players, r)
    ensures AllPointsConsistent(players) ==> AllPointsConsistent(r)
  {
    var w1 := ApplyWin(players[winner1], winnerGames, loserGames);
    var w2 := ApplyWin(players[winner2], winnerGames, loserGames);
    var l1 := ApplyLoss(players[loser1], winnerGames, loserGames);
    var l2 := ApplyLoss(players[loser2], winnerGames, loserGames);
    players[winner1 := w1][winner2 := w2][loser1 := l1][loser2 := l2]
  }

  /** For four distinct players, each winner gets the winner's deltas and each loser the loser's. */
  lemma DoublesEffectDeltas(players: map<PlayerId, Player>, winner1: PlayerId, winner2: PlayerId,
                            loser1: PlayerId, loser2: PlayerId,
                            winnerGames: nat, loserGames: nat)
    requires winner1 in players && winner2 in players && loser1 in players && loser2 in players
    requires Distinct4(winner1, winner2, loser1, loser2)
    ensures var r := DoublesEffect(players, winner1, winner2, loser1, loser2, winnerGames, loserGames);
            r[winner1] == ApplyWin(players[winner1], winnerGames, loserGames)
            && r[winner2] == ApplyWin(players[winner2], winnerGames, loserGames)
            && r[loser1] == ApplyLoss(players[loser1], winnerGames, loserGames)
            && r[loser2] == ApplyLoss(players[loser2], winnerGames, loserGames)
  {
  }

  /**
   * delete_history: winner1 and loser1 are loaded together, updated and saved; then, only when
   * winner2 and loser2 are both set, those two are loaded from the table as it now is, updated
   * and saved. The match type is never consulted.
   */
  function DeleteEffect(players: map<PlayerId, Player>, m: Match): (r: map<PlayerId, Player>)
    requires RefsIn(m, players)
    ensures r.Keys == players.Keys && SameUsers(players, r)
    ensures AllPointsConsistent(players) ==> AllPointsConsistent(r)
    ensures forall id :: (id in players && id != m.winner1 && id != m.loser1
              && m.winner2 != Some(id) && m.loser2 != Some(id)) ==> r[id] == players[id]
  {
    var w1 := ReverseWin(players[m.winner1], m.winnerGames, m.loserGames);
    var l1 := ReverseLoss(players[m.loser1], m.winnerGames, m.loserGames);
    var s := players[m.winner1 := w1][m.loser1 := l1];
    if m.winner2.Some? && m.loser2.Some? then
      var w2 := ReverseWin(s[m.winner2.value], m.winnerGames, m.loserGames);
      var l2 := ReverseLoss(s[m.loser2.value], m.winnerGames, m.loserGames);
      s[m.winner2.value := w2][m.loser2.value := l2]
    else
      s
  }

  /** Deleting a match never looks at its type. */
  lemma DeleteIgnoresType(players: map<PlayerId, Player>, m: Match, t: Option<MatchType>)
    requires RefsIn(m, players)
    ensures DeleteEffect(players, m.(typeChoice := t)) == DeleteEffect(players, m)
  {
  }

  /** A second winner without a second loser (or the reverse) is left untouched by deletion. */
  lemma DeleteNeedsBothSecondaries(players: map<PlayerId, Player>, m: Match)
    requires RefsIn(m, players)
    requires m.winner2.None? || m.loser2.None?
    ensures DeleteEffect(players, m)
            == DeleteEffect(players, m.(winner2 := None, loser2 := None))
    ensures m.winner2.Some? && m.winner2.value != m.winner1 && m.winner2.value != m.loser1 ==>
            DeleteEffect(players, m)[m.winner2.value] == players[m.winner2.value]
    ensures m.loser2.Some? && m.loser2.value != m.winner1 && m.loser2.value != m.loser1 ==>
            DeleteEffect(players, m)[m.loser2.value] == players[m.loser2.value]
  {
  }

  /**
   * When winner1 and loser1 are the same row (a match not made by the recording views),
   * the later save of the loser's copy overwrites the winner's update.
   */
  lemma DeleteSelfMatchLosesWinnerUpdate(players: map<PlayerId, Player>, m: Match)
    requires RefsIn(m, players)
    requires m.winner1 == m.loser1 && (m.winner2.None? || m.loser2.None?)
    ensures DeleteEffect(players, m)[m.winner1]
            == ReverseLoss(players[m.winner1], m.winnerGames, m.loserGames)
  {
  }

  /** For distinct participants, deletion subtracts exactly the recording deltas. */
  lemma DeleteEffectDeltas(players: map<PlayerId, Player>, m: Match)
    requires RefsIn(m, players) && m.winner1 != m.loser1
    requires m.winner2.Some? && m.loser2.Some? ==>
             Distinct4(m.winner1, m.winner2.value, m.loser1, m.loser2.value)
    ensures var r := DeleteEffect(players, m);
            r[m.winner1] == ReverseWin(players[m.winner1], m.winnerGames, m.loserGames)
            && r[m.loser1] == ReverseLoss(players[m.loser1], m.winnerGames, m.loserGames)
    ensures var r := DeleteEffect(players, m);
            m.winner2.Some? && m.loser2.Some? ==>
              r[m.winner2.value] == ReverseWin(players[m.winner2.value], m.winnerGames, m.loserGames)
              && r[m.loser2.value] == ReverseLoss(players[m.loser2.value], m.winnerGames, m.loserGames)
  {
  }

  /** Recording a singles match and then deleting the saved row gives back the original table. */
  lemma SinglesRoundTrip(players: map<PlayerId, Player>, date: Date, stadium: StadiumId,
                         winner: PlayerId, loser: PlayerId, winnerGames: nat, loserGames: nat)
    requires winner in players && loser in players && winner != loser
    requires PointConsistent(players[winner]) && PointConsistent(players[loser])
    ensures var m := SinglesMatch(date, stadium, winner, loser, winnerGames, loserGames);
            DeleteEffect(SinglesEffect(players, winner, loser, winnerGames, loserGames), m) == players
  {
    var m := SinglesMatch(date, stadium, winner, loser, winnerGames, loserGames);
    var after := SinglesEffect(players, winner, loser, winnerGames, loserGames);
    SinglesEffectDeltas(players, winner, loser, winnerGames, loserGames);
    DeleteEffectDeltas(after, m);
    ReverseWinUndoesApplyWin(players[winner], winnerGames, loserGames);
    ReverseLossUndoesApplyLoss(players[loser], winnerGames, loserGames);
    var back := DeleteEffect(after, m);
    assert back.Keys == players.Keys;
    assert forall id :: id in players ==> back[id] == players[id];
  }

  /** Recording a doubles match and then deleting the saved row gives back the original table. */
  lemma DoublesRoundTrip(players: map<PlayerId, Player>, date: Date, stadium: StadiumId,
                         winner1: PlayerId, winner2: PlayerId, loser1: PlayerId, loser2: PlayerId,
                         winnerGames: nat, loserGames: nat)
    requires winner1 in players && winner2 in players && loser1 in players && loser2 in players
    requires Distinct4(winner1, winner2, loser1, loser2)
    requires PointConsistent(players[winner1]) && PointConsistent(players[winner2])
    requires PointConsistent(players[loser1]) && PointConsistent(players[loser2])
    ensures var m := DoublesMatch(date, stadium, winner1, winner2, loser1, loser2, winnerGames, loserGames);
            DeleteEffect(DoublesEffect(players, winner1, winner2, loser1, loser2, winnerGames, loserGames), m)
            == players
  {
    var m := DoublesMatch(date, stadium, winner1, winner2, loser1, loser2, winnerGames, loserGames);
    var after := DoublesEffect(players, winner1, winner2, loser1, loser2, winnerGames, loserGames);
    DoublesEffectDeltas(players, winner1, winner2, loser1, loser2, winnerGames, loserGames);
    DeleteEffectDeltas(after, m);
    ReverseWinUndoesApplyWin(players[winner1], winnerGames, loserGames);
    ReverseWinUndoesApplyWin(players[winner2], winnerGames, loserGames);
    ReverseLossUndoesApplyLoss(players[loser1], winnerGames, loserGames);
    ReverseLossUndoesApplyLoss(players[loser2], winnerGames, loserGames);
    var back := DeleteEffect(after, m);
    assert back.Keys == players.Keys;
    assert forall id :: id in players ==> back[id] == players[id];
  }
}
