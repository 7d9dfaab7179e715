/**
 * The league's database as one object, and the views of tennis/views.py that change it:
 * register, make_singles, make_doubles and delete_history. The logged-in user that the
 * source reads from the request is the explicit `submitter` parameter.
 */
module LeagueState {
  import opened Wrappers
  import opened Models
  import opened Validation
  import opened Ledger
  import opened Submission

  /** An account row as register creates it. The password is stored hashed and is not modelled. */
  datatype Account = Account(username: string, email: string, isSuperuser: bool)

  /** The account a player row is linked to. */
  ghost function UserOf(players: map<PlayerId, Player>, id: PlayerId): UserId
    requires id in players
  {
    players[id].user
  }

  /** The username of an account. */
  ghost function NameOf(users: map<UserId, Account>, u: UserId): string
    requires u in users
  {
    users[u].username
  }

  /** Every player row is linked to an account, and no account to two rows. */
  ghost predicate LinksValid(users: map<UserId, Account>, players: map<PlayerId, Player>) {
    (forall id :: id in players ==> players[id].user in users)
    && (forall a, b {:trigger UserOf(players, a), UserOf(players, b)} ::
          a in players && b in players && a != b ==> UserOf(players, a) != UserOf(players, b))
  }

  /** No two accounts share a username. */
  ghost predicate UsernamesUnique(users: map<UserId, Account>) {
    forall u, v {:trigger NameOf(users, u), NameOf(users, v)} ::
      u in users && v in users && u != v ==> NameOf(users, u) != NameOf(users, v)
  }

  /** Every match refers to existing player rows. */
  ghost predicate RefsValid(matches: map<MatchId, Match>, players: map<PlayerId, Player>) {
    forall id :: id in matches ==> RefsIn(matches[id], players)
  }

  /** Every key of a table is below the key handed out next. */
  ghost predicate KeysBelow<V>(table: map<nat, V>, next: nat) {
    forall k :: k in table ==> k < next
  }

  /**
   * What the database keeps true: keys below the next key to hand out, every player linked
   * to an account and no account linked twice, unique usernames, the point invariant, and
   * every match referring to existing players.
   */
  ghost predicate TablesValid(users: map<UserId, Account>, players: map<PlayerId, Player>,
                              matches: map<MatchId, Match>,
                              nextUser: nat, nextPlayer: nat, nextMatch: nat) {
    KeysBelow(users, nextUser) && KeysBelow(players, nextPlayer) && KeysBelow(matches, nextMatch)
    && LinksValid(users, players) && UsernamesUnique(users)
    && AllPointsConsistent(players) && RefsValid(matches, players)
  }

  /** Rewriting player rows without relinking them keeps the tables valid if points stay consistent. */
  lemma ReplacePlayersKeepsValid(users: map<UserId, Account>, players: map<PlayerId, Player>,
                                 players': map<PlayerId, Player>, matches: map<MatchId, Match>,
                                 nextUser: nat, nextPlayer: nat, nextMatch: nat)
    requires TablesValid(users, players, matches, nextUser, nextPlayer, nextMatch)
    requires SameUsers(players, players') && AllPointsConsistent(players')
    ensures TablesValid(users, players', matches, nextUser, nextPlayer, nextMatch)
  {
    assert forall id :: id in players' <==> id in players;
    forall a, b | a in players' && b in players' && a != b
      ensures UserOf(players', a) != UserOf(players', b)
    {
      assert UserOf(players, a) != UserOf(players, b);
    }
    forall id | id in matches ensures RefsIn(matches[id], players') {
      assert RefsIn(matches[id], players);
    }
  }

  /** The usernames the user table holds. */
  function UsernameSet(users: map<UserId, Account>): set<string> {
    set u | u in users :: users[u].username
  }

  /**
   * Creating an account under the next user key with a name not yet taken, and its Player under
   * the next player key, keeps the tables valid and adds exactly that name.
   */
  lemma RegisterKeepsValid(users: map<UserId, Account>, players: map<PlayerId, Player>,
                           matches: map<MatchId, Match>, name: string, email: string,
                           nextUser: nat, nextPlayer: nat, nextMatch: nat)
    requires TablesValid(users, players, matches, nextUser, nextPlayer, nextMatch)
    requires name !in UsernameSet(users)
    ensures nextUser !in users && nextPlayer !in players
    ensures var users' := users[nextUser := Account(name, email, true)];
            var players' := players[nextPlayer := NewPlayer(nextUser)];
            TablesValid(users', players', matches, nextUser + 1, nextPlayer + 1, nextMatch)
            && UsernameSet(users') == UsernameSet(users) + {name}
  {
    var users' := users[nextUser := Account(name, email, true)];
    var players' := players[nextPlayer := NewPlayer(nextUser)];
    forall a, b | a in players' && b in players' && a != b
      ensures UserOf(players', a) != UserOf(players', b)
    {
      if a != nextPlayer && b != nextPlayer {
        assert UserOf(players, a) != UserOf(players, b);
      }
    }
    forall u, v | u in users' && v in users' && u != v
      ensures NameOf(users', u) != NameOf(users', v)
    {
      if u != nextUser && v != nextUser {
        assert NameOf(users, u) != NameOf(users, v);
      } else if u == nextUser {
        assert users[v].username in UsernameSet(users);
      } else {
        assert users[u].username in UsernameSet(users);
      }
    }
    forall id | id in matches ensures RefsIn(matches[id], players') {
      assert RefsIn(matches[id], players);
    }
    forall x | x in UsernameSet(users') ensures x in UsernameSet(users) + {name} {
      var u :| u in users' && users'[u].username == x;
      if u != nextUser {
        assert users[u].username == x;
      }
    }
    forall x | x in UsernameSet(users) ensures x in UsernameSet(users') {
      var u :| u in users && users[u].username == x;
      assert users'[u].username == x;
    }
    assert users'[nextUser].username == name;
  }

  /** Saving a new match whose references exist, under the next key, keeps the tables valid. */
  lemma AddMatchKeepsValid(users: map<UserId, Account>, players: map<PlayerId, Player>,
                           matches: map<MatchId, Match>, m: Match,
                           nextUser: nat, nextPlayer: nat, nextMatch: nat)
    requires TablesValid(users, players, matches, nextUser, nextPlayer, nextMatch)
    requires RefsIn(m, players)
    ensures nextMatch !in matches
    ensures TablesValid(users, players, matches[nextMatch := m], nextUser, nextPlayer, nextMatch + 1)
  {
  }

  /** Removing a match keeps the tables valid. */
  lemma RemoveMatchKeepsValid(users: map<UserId, Account>, players: map<PlayerId, Player>,
                              matches: map<MatchId, Match>, id: MatchId,
                              nextUser: nat, nextPlayer: nat, nextMatch: nat)
    requires TablesValid(users, players, matches, nextUser, nextPlayer, nextMatch)
    ensures TablesValid(users, players, matches - {id}, nextUser, nextPlayer, nextMatch)
  {
  }

  class League {
    var users: map<UserId, Account>
    var players: map<PlayerId, Player>
    var matches: map<MatchId, Match>
    /** The keys the next inserted row of each table receives. */
    var nextUser: nat
    var nextPlayer: nat
    var nextMatch: nat

    /** The object invariant: the tables are valid. */
    ghost predicate Valid()
      reads this
    {
      TablesValid(users, players, matches, nextUser, nextPlayer, nextMatch)
    }

    /** An empty database; primary keys start at 1. */
    constructor ()
      ensures Valid()
      ensures users == map[] && players == map[] && matches == map[]
      ensures nextUser == 1 && nextPlayer == 1 && nextMatch == 1
    {
      users, players, matches := map[], map[], map[];
      nextUser, nextPlayer, nextMatch := 1, 1, 1;
    }

    /**
     * register: lower-case the username, run is_valid_user against the current usernames,
     * and on success create one superuser account and one Player with zero counters.
     */
    method Register(username: string, email: string, password: string, confirmPassword: string)
      returns (r: Outcome<RegError>)
      requires Valid()
      modifies this
      ensures Valid()
      ensures r == ValidateUser(Lower(username), email, password, confirmPassword, UsernameSet(old(users)))
      ensures r.Pass? ==>
        old(nextUser) !in old(users) && old(nextPlayer) !in old(players)
        && users == old(users)[old(nextUser) := Account(Lower(username), email, true)]
        && players == old(players)[old(nextPlayer) := NewPlayer(old(nextUser))]
        && nextUser == old(nextUser) + 1 && nextPlayer == old(nextPlayer) + 1
        && UsernameSet(users) == UsernameSet(old(users)) + {Lower(username)}
        && Lower(username) !in UsernameSet(old(users))
      ensures r.Fail? ==>
        users == old(users) && players == old(players)
        && nextUser == old(nextUser) && nextPlayer == old(nextPlayer)
      ensures matches == old(matches) && nextMatch == old(nextMatch)
    {
      var name := Lower(username);
      r := ValidateUser(name, email, password, confirmPassword, UsernameSet(users));
      if r.Pass? {
        RegisterKeepsValid(users, players, matches, name, email, nextUser, nextPlayer, nextMatch);
        var uid := nextUser;
        users := users[uid := Account(name, email, true)];
        nextUser := nextUser + 1;
        var pid := nextPlayer;
        players := players[pid := NewPlayer(uid)];
        nextPlayer := nextPlayer + 1;
      }
    }

    /**
     * make_singles on cleaned form data: the checks in their order, then the two rows updated
     * and saved, loser first, then one new SINGLES match.
     */
    method RecordSingles(submitter: UserId, winnerId: PlayerId, loserId: PlayerId, date: Date,
                         winnerGames: nat, loserGames: nat, stadium: StadiumId)
      returns (r: Outcome<SubmitError>)
      requires Valid()
      modifies this
      ensures Valid()
      ensures r == SinglesVerdict(old(players), submitter, winnerId, loserId, winnerGames, loserGames)
      ensures r.Pass? ==>
        players == SinglesEffect(old(players), winnerId, loserId, winnerGames, loserGames)
        && old(nextMatch) !in old(matches)
        && matches == old(matches)[old(nextMatch) :=
                                     SinglesMatch(date, stadium, winnerId, loserId, winnerGames, loserGames)]
        && nextMatch == old(nextMatch) + 1
      ensures r.Fail? ==> players == old(players) && matches == old(matches) && nextMatch == old(nextMatch)
      ensures users == old(users) && nextUser == old(nextUser) && nextPlayer == old(nextPlayer)
    {
      if winnerId == loserId {
        return Fail(SelfMatch);
      } else if winnerGames == 0 {
        return Fail(ZeroScore);
      } else if winnerGames <= loserGames {
        return Fail(NonWinningScore);
      }
      if winnerId !in players {
        return Fail(NotFound);
      }
      var winner := players[winnerId];
      if loserId !in players {
        return Fail(NotFound);
      }
      var loser := players[loserId];
      if !(winner.user == submitter || loser.user == submitter) {
        return Fail(NotAParticipant);
      }
      winner := ApplyWin(winner, winnerGames, loserGames);
      loser := ApplyLoss(loser, winnerGames, loserGames);
      var m := SinglesMatch(date, stadium, winnerId, loserId, winnerGames, loserGames);
      players := players[loserId := loser];
      players := players[winnerId := winner];
      assert players == SinglesEffect(old(players), winnerId, loserId, winnerGames, loserGames);
      ReplacePlayersKeepsValid(users, old(players), players, matches, nextUser, nextPlayer, nextMatch);
      AddMatchKeepsValid(users, players, matches, m, nextUser, nextPlayer, nextMatch);
      matches := matches[nextMatch := m];
      nextMatch := nextMatch + 1;
      r := Pass;
    }

    /**
     * make_doubles on cleaned form data (the form makes winner2 and loser2 mandatory): the
     * checks in their order, then the four rows updated and saved, then one new DOUBLES match.
     */
    method RecordDoubles(submitter: UserId, winner1Id: PlayerId, winner2Id: PlayerId,
                         loser1Id: PlayerId, loser2Id: PlayerId, date: Date,
                         winnerGames: nat, loserGames: nat, stadium: StadiumId)
      returns (r: Outcome<SubmitError>)
      requires Valid()
      modifies this
      ensures Valid()
      ensures r == DoublesVerdict(old(players), submitter, winner1Id, winner2Id, loser1Id, loser2Id,
                                  winnerGames, loserGames)
      ensures r.Pass? ==>
        players == DoublesEffect(old(players), winner1Id, winner2Id, loser1Id, loser2Id,
                                 winnerGames, loserGames)
        && old(nextMatch) !in old(matches)
        && matches == old(matches)[old(nextMatch) :=
                                     DoublesMatch(date, stadium, winner1Id, winner2Id, loser1Id, loser2Id,
                                                  winnerGames, loserGames)]
        && nextMatch == old(nextMatch) + 1
      ensures r.Fail? ==> players == old(players) && matches == old(matches) && nextMatch == old(nextMatch)
      ensures users == old(users) && nextUser == old(nextUser) && nextPlayer == old(nextPlayer)
    {
      if winner1Id == loser1Id || winner1Id == loser2Id || winner2Id == loser1Id || winner2Id == loser2Id {
        return Fail(SelfMatch);
      } else if winner1Id == winner2Id {
        return Fail(DuplicateWinner);
      } else if loser1Id == loser2Id {
        return Fail(DuplicateLoser);
      } else if winnerGames == 0 {
        return Fail(ZeroScore);
      } else if winnerGames <= loserGames {
        return Fail(NonWinningScore);
      }
      if winner1Id !in players {
        return Fail(NotFound);
      }
      var winner1 := players[winner1Id];
      if winner2Id !in players {
        return Fail(NotFound);
      }
      var winner2 := players[winner2Id];
      if loser1Id !in players {
        return Fail(NotFound);
      }
      var loser1 := players[loser1Id];
      if loser2Id !in players {
        return Fail(NotFound);
      }
      var loser2 := players[loser2Id];
      if !(winner1.user == submitter || loser1.user == submitter
           || winner2.user == submitter || loser2.user == submitter) {
        return Fail(NotAParticipant);
      }
      winner1 := ApplyWin(winner1, winnerGames, loserGames);
      winner2 := ApplyWin(winner2, winnerGames, loserGames);
      loser1 := ApplyLoss(loser1, winnerGames, loserGames);
      loser2 := ApplyLoss(loser2, winnerGames, loserGames);
      var m := DoublesMatch(date, stadium, winner1Id, winner2Id, loser1Id, loser2Id, winnerGames, loserGames);
      players := players[winner1Id := winner1];
      players := players[winner2Id := winner2];
      players := players[loser1Id := loser1];
      players := players[loser2Id := loser2];
      assert players == DoublesEffect(old(players), winner1Id, winner2Id, loser1Id, loser2Id,
                                      winnerGames, loserGames);
      ReplacePlayersKeepsValid(users, old(players), players, matches, nextUser, nextPlayer, nextMatch);
      AddMatchKeepsValid(users, players, matches, m, nextUser, nextPlayer, nextMatch);
      matches := matches[nextMatch := m];
      nextMatch := nextMatch + 1;
      r := Pass;
    }

    /**
     * delete_history: a 404 for an unknown match; otherwise reverse winner1 and loser1, then
     * winner2 and loser2 when both are set, and remove the match. No login or participant check.
     */
    method DeleteMatch(matchId: MatchId) returns (r: Outcome<SubmitError>)
      requires Valid()
      modifies this
      ensures Valid()
      ensures r.Pass? <==> matchId in old(matches)
      ensures r.Fail? ==> r.error == NotFound && players == old(players) && matches == old(matches)
      ensures r.Pass? ==>
        players == DeleteEffect(old(players), old(matches)[matchId])
        && matches == old(matches) - {matchId}
      ensures users == old(users)
      ensures nextUser == old(nextUser) && nextPlayer == old(nextPlayer) && nextMatch == old(nextMatch)
    {
      if matchId !in matches {
        return Fail(NotFound);
      }
      var m := matches[matchId];
      var winner1 := players[m.winner1];
      var loser1 := players[m.loser1];
      winner1 := ReverseWin(winner1, m.winnerGames, m.loserGames);
      loser1 := ReverseLoss(loser1, m.winnerGames, m.loserGames);
      players := players[m.winner1 := winner1];
      players := players[m.loser1 := loser1];
      if m.winner2.Some? && m.loser2.Some? {
        var winner2 := players[m.winner2.value];
        var loser2 := players[m.loser2.value];
        winner2 := ReverseWin(winner2, m.winnerGames, m.loserGames);
        loser2 := ReverseLoss(loser2, m.winnerGames, m.loserGames);
        players := players[m.winner2.value := winner2];
        players := players[m.loser2.value := loser2];
      }
      assert players == DeleteEffect(old(players), m);
      ReplacePlayersKeepsValid(users, old(players), players, matches, nextUser, nextPlayer, nextMatch);
      RemoveMatchKeepsValid(users, players, matches, matchId, nextUser, nextPlayer, nextMatch);
      matches := matches - {matchId};
      r := Pass;
    }
  }

  /**
   * Submitting a singles result and then deleting the match it created leaves the players and
   * matches exactly as they were; a rejected submission changes nothing in the first place.
   */
  method SinglesRecordThenDelete(league: League, submitter: UserId, winnerId: PlayerId, loserId: PlayerId,
                                 date: Date, winnerGames: nat, loserGames: nat, stadium: StadiumId)
    returns (r: Outcome<SubmitError>)
    requires league.Valid()
    modifies league
    ensures league.Valid()
    ensures r == SinglesVerdict(old(league.players), submitter, winnerId, loserId, winnerGames, loserGames)
    ensures league.players == old(league.players) && league.matches == old(league.matches)
  {
    ghost var before := league.players;
    r := league.RecordSingles(submitter, winnerId, loserId, date, winnerGames, loserGames, stadium);
    if r.Pass? {
      var deleted := league.DeleteMatch(league.nextMatch - 1);
      SinglesRoundTrip(before, date, stadium, winnerId, loserId, winnerGames, loserGames);
    }
  }

  /** The same round trip for a doubles result. */
  method DoublesRecordThenDelete(league: League, submitter: UserId,
                                 winner1Id: PlayerId, winner2Id: PlayerId,
                                 loser1Id: PlayerId, loser2Id: PlayerId,
                                 date: Date, winnerGames: nat, loserGames: nat, stadium: StadiumId)
    returns (r: Outcome<SubmitError>)
    requires league.Valid()
    modifies league
    ensures league.Valid()
    ensures r == DoublesVerdict(old(league.players), submitter, winner1Id, winner2Id, loser1Id, loser2Id,
                                winnerGames, loserGames)
    ensures league.players == old(league.players) && league.matches == old(league.matches)
  {
    ghost var before := league.players;
    r := league.RecordDoubles(submitter, winner1Id, winner2Id, loser1Id, loser2Id,
                              date, winnerGames, loserGames, stadium);
    if r.Pass? {
      var deleted := league.DeleteMatch(league.nextMatch - 1);
      DoublesRoundTrip(before, date, stadium, winner1Id, winner2Id, loser1Id, loser2Id, winnerGames, loserGames);
    }
  }
}
