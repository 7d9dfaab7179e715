# Tennis league ledger, in Dafny

A model of the match ledger of the `tennis` Django application of a small tennis league
manager, and of the validation gate in front of it.

- **Players** carry four counters (games won and lost, matches won and lost) and a stored
  `point` that must always equal games won minus games lost.
- **Recording** a singles or doubles result (`make_singles`, `make_doubles`) runs its
  rejection checks in a fixed order. It then adds the score to every participant: the
  winner's way round for winners, the loser's way round for losers. It then saves one Match row.
- **Deleting** a match (`delete_history`) subtracts exactly what recording added. So recording a
  match and then deleting it gives back every player row unchanged.
- **Registration** (`register`, `is_valid_user`, `is_valid_entry`) lower-cases the username and
  runs an ordered chain of field checks. On success it creates one account and one Player whose
  counters are all zero.
- **The player page** (`player_details`) lists the matches a player appears in, each with a
  "won" flag.

Modules, following the source:

| file | module | models |
|---|---|---|
| wrappers.dfy | `Wrappers` | `Option` and `Outcome` (pass, or fail with an error) |
| models.dfy | `Models` | `tennis/models.py`: the Player and Match rows, the win-percent helpers, `isSinglesType` |
| validation.dfy | `Validation` | `is_valid_entry` (with the regular expression's own `$` semantics), `is_valid_user`, the lower-casing in `register` |
| ledger.dfy | `Ledger` | the counter arithmetic of `make_singles`, `make_doubles` and `delete_history`, as functions on the player table |
| submission.dfy | `Submission` | the ordered rejection checks of `make_singles` and `make_doubles` |
| details.dfy | `Details` | the match filter and won flag of `player_details` |
| league.dfy | `LeagueState` | class `League`, the database. Its methods `Register`, `RecordSingles`, `RecordDoubles` and `DeleteMatch` are the views that change it |

The database is a `League` object. It holds three tables as maps from primary key to row (one
each for accounts, players and matches) and the next key each table hands out; Django's
AutoField starts at 1.

A player row is a datatype value. A view loads a row, changes the loaded copy and saves it
back, and the ledger functions replay exactly that load and save order. So `DeleteEffect`
also captures what `delete_history` does to a match whose winner1 and loser1 are the same
player: the later save of the loser's copy overwrites the winner's update
(`Ledger.DeleteSelfMatchLosesWinnerUpdate`). The recording views can never create such a
match, but one could be stored by other means.

`League.Valid()` is the object invariant. It says:

- every key is below the next key to hand out;
- every player row is linked to an existing account, and no account to two rows;
- usernames are unique;
- every player's point is consistent;
- every match refers to existing player rows.

Every method preserves it.

`Valid()` does not require a stored match to be well formed. `delete_history` is modelled on
any stored match: it never looks at the type, and it reverses winner2 and loser2 only when
both are set.

Recording runs the identity and score checks first, then the row lookups, then the
participant check.

Where the intended design and the code differ, the model follows the code:

- Deletion ignores the match type.
- No workflow is atomic: each is one sequential state change.

The e-mail "already in use" check looks the e-mail up among the existing usernames, exactly as
`tennis/views.py:28` does.

A quirk of the regular expression is kept: Python's `$` also matches just before a final newline.
So `is_valid_entry` accepts an entry of allowed characters followed by one newline, including
`"\n"` alone (`Validation.TrailingNewlineQuirk`).

The logged-in user (`request.user`) is the explicit `submitter` parameter of the recording
methods.

## Model

| member | source | states |
|---|---|---|
| `Validation.MatchFrom` | tennis/views.py:18 | the regular-expression scan from a position: when it succeeds, every character before the last is in the class, and the last is in the class or a newline |
| `Validation.MatchFromIff` | tennis/views.py:18 | scanning with `^[A-Za-z\-_@0-9.']*$` from any position succeeds exactly when the rest is all allowed characters, or allowed characters and then one final newline |
| `Validation.RegexMatchesIff` | tennis/views.py:18 | `re.match` succeeds exactly on all-allowed strings, optionally followed by one trailing newline |
| `Validation.IsValidEntry` | tennis/views.py:16-18 | an entry is valid exactly when it has 1 to 30 characters, all in the class, except that the last may be a newline |
| `Validation.ValidEntryIff` | tennis/views.py:16-18 | an entry is valid iff it has 1 to 30 characters, all in the class, the last of which may instead be a newline |
| `Validation.ValidEntryWithoutNewline` | tennis/views.py:16-18 | for an entry without a newline: valid iff it has 1 to 30 characters, all in the class |
| `Validation.TrailingNewlineQuirk` | tennis/views.py:18 | `"ab\n"` and `"\n"` are accepted; `"a\nb"`, `"ab\n\n"`, `""` and `"a b"` are rejected |
| `Validation.Lower` | tennis/views.py:113 | the username lower-casing keeps the length, lower-cases each ASCII letter and leaves no upper-case ASCII letter |
| `Validation.LowerIdempotent` | tennis/views.py:113 | lower-casing an already lower-cased username changes nothing |
| `Validation.LowerKeepsValidity` | tennis/views.py:113-116 | lower-casing before validation neither makes a valid username invalid nor an invalid one valid |
| `Validation.RegMessage` | tennis/views.py:24-34 | each registration failure has a non-empty message |
| `Validation.RegMessageInjective` | tennis/views.py:24-34 | distinct registration failures have distinct messages |
| `Validation.ValidateUser` | tennis/views.py:21-35 | each failure is returned exactly when every earlier check passes and its own check fails. The order is: username format, username taken, e-mail format, e-mail among usernames, password format, confirmation format, passwords differ. Success holds exactly when all checks pass |
| `Validation.IsValidUser` | tennis/views.py:21-35 | the reply is `(True, "")` exactly on success. On success the username and e-mail are unused and the passwords agree. Otherwise the flag is false and the message is the one of the first failing check |
| `Models.NewPlayer` | tennis/models.py:19-24 | a new Player has all counters 0, belongs to its account, has a consistent point, and both win percents are "N/A" |
| `Models.GameWinPercent` | tennis/models.py:32-35 | "N/A" exactly when game wins plus game losses is 0; otherwise the ratio of wins to wins plus losses |
| `Models.MatchWinPercent` | tennis/models.py:37-40 | "N/A" exactly when match wins plus match losses is 0; otherwise the ratio of match wins to all matches |
| `Models.IsSinglesType` | tennis/models.py:61-65 | true exactly when the type is SINGLES; false for DOUBLES and for null |
| `Models.SinglesMatch` | tennis/views.py:218-225 | the saved singles row has type SINGLES, the given date, stadium, winner, loser and score, and no second winner or loser |
| `Models.DoublesMatch` | tennis/views.py:303-312 | the saved doubles row has type DOUBLES, the given date and stadium, all four given role references and the score |
| `Ledger.ApplyWin` | tennis/views.py:208-211 | a winner gains one match win, the winner's games as wins and the loser's games as losses; the account link is kept; the point is recomputed and rises by the game difference |
| `Ledger.ApplyLoss` | tennis/views.py:213-216 | a loser gains one match loss, the loser's games as wins and the winner's games as losses; the point is recomputed and falls by the game difference |
| `Ledger.ReverseWin` | tennis/views.py:56-59 | deletion takes one match win and the recorded games off a winner, keeps the link and recomputes the point |
| `Ledger.ReverseLoss` | tennis/views.py:61-64 | deletion takes one match loss and the recorded games off a loser, keeps the link and recomputes the point |
| `Ledger.ReverseWinUndoesApplyWin` | tennis/views.py:56-59 | reversing a win restores a row with a consistent point exactly; any other row comes back with its point recomputed |
| `Ledger.ReverseLossUndoesApplyLoss` | tennis/views.py:61-64 | reversing a loss restores a row with a consistent point exactly |
| `Ledger.SinglesEffect` | tennis/views.py:202-228 | recording a singles result changes no row other than the winner's and the loser's, relinks no row and keeps the point invariant |
| `Ledger.SinglesEffectDeltas` | tennis/views.py:208-216 | for two distinct players the winner's row gets the winner's deltas and the loser's row the loser's deltas |
| `Ledger.SinglesZeroSum` | tennis/views.py:208-216 | the winner's point rises and the loser's falls by the game difference, so their sum is unchanged |
| `Ledger.DoublesEffect` | tennis/views.py:274-317 | recording a doubles result changes no row outside the four participants, relinks no row and keeps the point invariant |
| `Ledger.DoublesEffectDeltas` | tennis/views.py:283-301 | for four distinct players, each winner gets the winner's deltas and each loser the loser's |
| `Ledger.DeleteEffect` | tennis/views.py:50-85 | deletion touches only the match's participants, keeps every key and link, and keeps the point invariant |
| `Ledger.DeleteEffectDeltas` | tennis/views.py:56-80 | for distinct participants, deletion subtracts exactly the recording deltas from winner1 and loser1, and from winner2 and loser2 when both are set |
| `Ledger.DeleteNeedsBothSecondaries` | tennis/views.py:69 | when winner2 or loser2 is null, deletion acts as if both were null, so a lone winner2 or loser2 is left untouched |
| `Ledger.DeleteIgnoresType` | tennis/views.py:50-85 | deletion gives the same result whatever the match type |
| `Ledger.DeleteSelfMatchLosesWinnerUpdate` | tennis/views.py:53-67 | when winner1 and loser1 are the same player, only the loser's reversal survives, because it is saved last from a copy loaded before the winner's save |
| `Ledger.SinglesRoundTrip` | tennis/views.py:208-229 | deleting a just-recorded singles match restores the player table exactly |
| `Ledger.DoublesRoundTrip` | tennis/views.py:283-318 | deleting a just-recorded doubles match restores the player table exactly |
| `Submission.SubmitMessage` | tennis/views.py:257-280 | every rejection except the 404 flashes a message |
| `Submission.SinglesVerdict` | tennis/views.py:192-206 | each rejection happens exactly when the earlier checks pass and its own fails. The order is: same player, winner games 0, winner games not above loser games, a player row missing, neither player's account is the submitter's. Success holds exactly when all checks pass |
| `Submission.DoublesVerdict` | tennis/views.py:257-281 | each rejection happens exactly when the earlier checks pass and its own fails. The order is: a winner is a loser, winner1 equals winner2, loser1 equals loser2, zero score, non-winning score, a row missing, none of the four accounts is the submitter's. Success holds exactly when all checks pass |
| `Details.WonFlag` | tennis/views.py:99-101 | the flag is true exactly when the player is winner1 or winner2; for a match without winner2 it compares winner1 only |
| `Details.PlayerDetails` | tennis/views.py:90-101 | a 404 exactly for an unknown player. Otherwise the listed matches are exactly those in which the player fills any of the four roles, each with its won flag |
| `Details.WonFlagOfRecordedSingles` | tennis/views.py:99-101 | in a recorded singles match the flag is true for the winner and false for the loser |
| `Details.WonFlagOfRecordedDoubles` | tennis/views.py:99-101 | in a recorded doubles match the flag is true for both winners and false for both losers |
| `LeagueState.RegisterKeepsValid` | tennis/views.py:118-123 | adding an account with an untaken name and its zero Player under fresh keys keeps the database invariant and adds exactly that name |
| `LeagueState.League.Register` | tennis/views.py:112-127 | the verdict is the registration check applied to the lower-cased username. On success exactly one account and one zero-counter Player are added and exactly one username joins the set. On failure no account or player is added |
| `LeagueState.League.RecordSingles` | tennis/views.py:181-232 | the verdict is `SinglesVerdict` on the old table. On success the players become `SinglesEffect` of the old ones and exactly one SINGLES match is added under a fresh key. On any rejection no player or match changes |
| `LeagueState.League.RecordDoubles` | tennis/views.py:242-321 | the verdict is `DoublesVerdict`. On success the players become `DoublesEffect` and exactly one DOUBLES match is added under a fresh key. On any rejection nothing changes |
| `LeagueState.League.DeleteMatch` | tennis/views.py:50-87 | a 404 exactly for an unknown match, with nothing changed. Otherwise the players become `DeleteEffect` of the old ones and only that match is removed. There is no login or participant check |
| `LeagueState.SinglesRecordThenDelete` | tennis/views.py:50-87 | submitting a singles result then deleting the match it created leaves players and matches as they were |
| `LeagueState.DoublesRecordThenDelete` | tennis/views.py:50-87 | the same for a doubles result |

## Left out

- Persistence: the Django ORM, `save()`/`delete()` and `get_object_or_404` are map updates and a
  NotFound result. In `delete_history` the player lookups cannot fail, because the foreign keys
  keep every referenced player (part of `League.Valid()`), so only the match lookup yields NotFound.
- Sessions and HTTP: `authenticate`/`login`/`logout`, the `@login_required` decorator and the
  `is_authenticated()` branches of the recording views are left out. The logged-in user is a
  parameter. `user_login`, `user_logout`, `report`, `report_singles` and `report_doubles` only
  render or redirect.
- Responses: rendering, flashed messages and redirects are left out. The message strings are kept
  as `RegMessage` and `SubmitMessage`.
- Forms: the `MatchForm` ModelForm and its `is_valid()` branch are left out. The recording
  methods take its cleaned data: player keys and non-negative game counts.
- The `standings` and `history` views and the `order_by` sorting in them and in
  `player_details`: library sorting with no logic of the application's own.
  `Details.PlayerDetails` returns the match set with flags, without order.
- Passwords: account passwords are stored hashed by Django and are not modelled. `Account`
  keeps the username, the e-mail as submitted and the superuser flag. Django's
  `create_superuser` normalises the e-mail's domain part before storing it; the model stores it
  raw, and nothing in the model reads the stored e-mail.
- `Validation.Lower`: lower-cases ASCII letters only. Python's `str.lower()` also maps other
  characters, some of them to ASCII (the Kelvin sign becomes `k`). The model does not capture
  that such a username lower-cases into a valid one.
- `Validation.LowerKeepsValidity`: holds for the model's ASCII lower-casing only. With Python's
  `str.lower()` an invalid username (one holding the Kelvin sign) can lower-case into a valid one.
- The win-percent helpers: the float division and the `'{:.2%}'` formatting are floating point.
  `GameWinPercent` and `MatchWinPercent` return the "N/A" case or the numerator and denominator.
- `Stadium` rows, `__unicode__` and `get_name`: presentation only. A match carries its stadium
  as a key.
- Column defaults of Match (`winner_games`/`loser_games` 0, `type_choice` 'SINGLES'): the views
  always give every field, so the model has no defaults. Games are `nat`, as the
  PositiveIntegerField requires.
- Concurrency and atomicity: the separate saves of one view have no transaction, and
  concurrent requests are not modelled. Each workflow is one sequential state change.
- `tennis/urls.py` (routing) and `tennis/forms.py` are not part of this model.
