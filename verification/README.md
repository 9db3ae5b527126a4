# Blaze battles backend in Dafny

A model of the decision logic of the game's three server handlers:

- **Battle engine** (`backend/game/index.py`): the `attack` and `use_power`
  actions on one battle row (HP, shield and counter deadlines, stored counter
  damage, status, winner), the per-(battle, user, power) cooldown table, and
  the settlement that credits winner and loser when a player drops to 0 HP.
- **Matchmaking** (same file): `find_match` expires queue rows older than
  25 s and pairs the caller with the earliest other waiting user (the caller
  becomes player1 of a new active battle at 10/10 HP) or queues the caller
  once; `cancel_search` leaves the queue and credits 10 money;
  `check_match` reports an active battle of the caller.
- **Spin resolver** (`backend/powers/index.py`): spin-balance check,
  selection of the first catalog entry whose running drop-chance total
  reaches the draw (else the first entry), a one-spin debit and a set-like
  inventory insert.
- **Auth** (`backend/auth/index.py`): nick stripping, the required-field
  and nick-pattern checks, `register` and `login`.

Every handler is a pure step function from a database value to a reply and
the next database value (`Tables.Db`, `Tables.Step`). Serial-id tables
(users, battles) are sequences whose index is the id, so an insert is an
append. The clock (`now`, integer milliseconds), the random draw (`draw`,
a `real`) and the password hash (`hash`, any function on strings) are
parameters.

Files: `common.dfy` (Option, Reply, errors), `tables.dfy` (rows, database,
battle invariant), `engine.dfy` and `battle_laws.dfy` (battles),
`matchmaking.dfy` and `matchmaking_laws.dfy`, `spin.dfy`, `auth.dfy`,
`scenarios.dfy` (concrete battles replayed request by request).

Behaviour worth knowing, modelled as the handlers have it:

- HP is never clamped: a hit subtracts the full damage and HP may go
  negative; settlement tests `<= 0`, player1 first.
- The finder of a match becomes player1; there is no `player1 < player2`
  ordering.
- `find_match` does not reject a caller already queued or in a battle; it
  queues idempotently. Stale rows expire after 25 s, not 20 s.
- A user who is not player1 acts as player2 in `use_power`: an outsider's
  defense or counter power writes player2's shield or counter
  (`BattleLaws.OutsiderShieldsPlayerTwo`), and an outsider's attack power is
  refused by the attack but its cooldown still starts
  (`BattleLaws.OutsiderAttackPowerStillCoolsDown`).
- `cancel_search` credits 10 money on every call, queued or not
  (`MatchmakingLaws.CancelPaysEveryCall`), and its queue delete happens even
  for an unknown user.
- A counter is spent by the attack it reflects (its deadline drops to 0); a
  shield is not spent by the attack it blocks.
- The cooldown is checked before the power and the battle are looked up,
  and is started even when the attack a power makes is blocked.

## Model

| member | source | states |
|---|---|---|
| Engine.Settle | backend/game/index.py:373-392 | Player1 at or below 0 HP loses first, else player2 at or below 0 loses; the loser's opponent becomes winner and the battle finishes; the winner row gains 1 win, 100 money and 1 spin and the loser row 1 loss (missing rows unchanged); with both above 0 nothing changes; HP columns are never touched |
| Engine.Attack | backend/game/index.py:205-294 | Missing or finished battle and non-participant are refused with the database unchanged; an active defender shield blocks with nothing changed (shield kept); else an active counter costs the attacker exactly the stored counter damage, leaves the defender's HP, and zeroes the defender's counter deadline; else the defender loses exactly `damage` and the attacker is untouched; the reply carries the settled HPs and winner; other battles, cooldowns, queue and inventory are unchanged |
| Engine.PlainAttack | backend/game/index.py:153-155 | The plain attack takes exactly 2 HP from an unshielded, uncountered defender |
| Engine.UsePower | backend/game/index.py:297-370 | Refusals in order (cooldown running, unknown power, inactive battle, unknown type) leave everything unchanged; otherwise `can_use_at` becomes now + cooldown*1000; a defense power sets the caller's side shield to now + duration*1000, a counter power sets the caller's side counter to now + 3000 with the power's damage, neither touching anything else; an attack power resolves as `Attack` with the power's damage |
| BattleLaws.CounterIsOneShot | backend/game/index.py:229-249 | After an attack is countered, an immediate second attack is not countered again |
| BattleLaws.CooldownGates | backend/game/index.py:298-307 | After a power took effect, using it again before its cooldown has elapsed is refused with PowerOnCooldown and changes nothing |
| BattleLaws.CooldownLapses | backend/game/index.py:359-368 | Once the cooldown has elapsed, the cooldown gate no longer refuses the same power |
| BattleLaws.FinishedBattleIsFrozen | backend/game/index.py:319-327 | On a finished battle every attack and every power use fails and changes nothing, so the winner never changes |
| BattleLaws.SettlementExactlyOnFinish | backend/game/index.py:377-390 | Users change only when an attack turns an active battle into a finished one, and then exactly the winner's and loser's credits are applied, with the winner the player not at or below 0 (player2 when player1 is) |
| BattleLaws.AttackKeepsConsistent | backend/game/index.py:240-286 | Attacks keep every battle row well formed: active means no winner and both HPs above 0; finished means a player at or below 0 and the right winner |
| BattleLaws.UsePowerKeepsConsistent | backend/game/index.py:331-357 | Power use keeps every battle row well formed |
| BattleLaws.OutsiderShieldsPlayerTwo | backend/game/index.py:329-341 | A non-participant's defense power succeeds and raises player2's shield |
| BattleLaws.OutsiderAttackPowerStillCoolsDown | backend/game/index.py:332-368 | A non-participant's attack power is refused as NotParticipant, battles and users unchanged, yet its cooldown row is written |
| Matchmaking.Keep | backend/game/index.py:110 | A queue DELETE keeps exactly the rows meeting its condition and keeps user ids unique |
| Matchmaking.Earliest | backend/game/index.py:113-117 | Finds a row of another user with the smallest `joined_at` (first queued among ties), or none exactly when every row is the caller's |
| Matchmaking.FindMatch | backend/game/index.py:109-140 | Matches exactly when a fresh row of another user exists; then the opponent is the earliest such user, a new active battle with the caller as player1 at 10/10 HP is appended with the next id, and the queue keeps the fresh rows of everyone else; otherwise no battle is created, the queue keeps every fresh row and holds the caller (kept or added with `now`); users, cooldowns and inventory never change; unique queue users stay unique |
| Matchmaking.CancelSearch | backend/game/index.py:142-150 | The caller's queue rows go, in every case; a known user gains exactly 10 money and the reply is the new balance; an unknown user gets UserNotFound; no other row changes |
| Matchmaking.CheckMatch | backend/game/index.py:40-57 | Reports a battle exactly when the caller plays in some active battle, and the report names that battle's players and HPs |
| MatchmakingLaws.SearchIsIdempotent | backend/game/index.py:134-140 | A second `find_match` at the same moment with nobody to pair with changes nothing |
| MatchmakingLaws.SearchQueuesOnce | backend/game/index.py:135-138 | With unique queue users, a searching caller is the queue's only row |
| MatchmakingLaws.MatchVisibleToBoth | backend/game/index.py:119-133 | After a match, `check_match` for both the caller and the opponent reports the new battle, if neither was already in an active battle |
| MatchmakingLaws.FindMatchKeepsConsistent | backend/game/index.py:121-123 | Creating a battle keeps every battle row well formed |
| MatchmakingLaws.CancelPaysEveryCall | backend/game/index.py:143-149 | Two cancels in a row credit 20 money and leave the queue as one cancel does |
| Spin.Pick | backend/powers/index.py:152-160 | Returns the first entry whose running drop-chance total reaches the draw, or none exactly when no running total does |
| Spin.DoSpin | backend/powers/index.py:135-170 | An unknown user or one with fewer than 1 spin is refused with nothing changed; an empty catalog fails with nothing changed; otherwise the prize is the selected catalog entry (first reaching the draw, else the first), the user's spins drop by exactly 1 with no other user field or row changing, and the inventory gains exactly that (user, power) pair, unchanged when already owned; when the total reaches the draw the fallback is not taken |
| Spin.SelectedIsUnique | backend/powers/index.py:152-163 | The selected entry is determined by the catalog and the draw |
| Spin.NoFallbackWhenTotalReaches | backend/powers/index.py:156-163 | When the whole catalog's drop chances reach the draw, the selection is the first entry reaching it, never the fallback |
| Spin.SelectionFollowsDraw | backend/powers/index.py:156-160 | A larger draw never selects an earlier catalog entry |
| Auth.Strip | backend/auth/index.py:40 | The stripped nick is the slice of the input left after cutting whitespace-only prefix and suffix, and is empty or begins and ends with a non-whitespace character |
| Auth.StripIsIdempotent | backend/auth/index.py:40 | Stripping an already stripped nick changes nothing |
| Auth.PatternOnStrippedNick | backend/auth/index.py:51-57 | On a stripped nick, the pattern with Python's `$` accepts exactly the non-empty strings of ASCII letters, digits and underscores |
| Auth.FindLogin | backend/auth/index.py:104-108 | Finds a user row with the given nick and password hash (the lowest id), or none exactly when no row matches |
| Auth.Handle | backend/auth/index.py:38-142 | Empty stripped nick or empty password, then a nick outside `[a-zA-Z0-9_]+`, is refused with users unchanged; register with a used nick fails unchanged, otherwise appends exactly one user with that nick, the password's hash, money 0 and spins 0, and returns it; login succeeds iff some row has the nick and the password's hash, returning that row, and never changes users; any other action is refused with users unchanged |
| Auth.HandleKeepsNicksUnique | backend/auth/index.py:65-80 | No request makes two users share a nick |
| Auth.RegisterThenLogin | backend/auth/index.py:77-108 | Logging in right after registering, with the same nick and password, returns the account just created |
| Scenarios.FivePlainHitsWin | backend/game/index.py:251-252 | Five plain hits by player1 take player2 from 10 to 0, settle the battle once (winner 100 money, 1 spin, 1 win; loser 1 loss) and leave it closed to further attacks |
| Scenarios.ShieldWindow | backend/game/index.py:334-341 | A 5-second shield blocks an attack 4.999 s later and not 5 s later |
| Scenarios.CounterReflects | backend/game/index.py:342-355 | A counter of damage 3 costs the attacker 3 HP, once |

## Left out

- HTTP methods, CORS headers, response envelopes and status codes: each reply is a `Reply` value; the 500 path of an uncaught exception is modelled only where it decides the outcome (an empty spin catalog).
- SQL, connections, commits and rollbacks: tables are Dafny values and every request is applied in full, one at a time; concurrent requests and races between them are not modelled.
- The two clock reads of an attack power (one in `handle_power_use`, one in `handle_attack`) are one `now`; Postgres `NOW()` and the Python clock are one clock.
- `fetchone()` without ORDER BY (login, `check_match`) and ties in `ORDER BY joined_at`: the model picks the lowest id or the earliest queue position, one of the rows the database may return.
- Column defaults not visible in the handlers are taken as 0: shield and counter deadlines and stored counter damage of a new battle, wins and losses of a new user.
- Integer widths of the database columns: all numbers are unbounded integers.
- Floating point in the spin: drop chances and the running total are exact `real`s; rounding of `float` sums is not modelled, nor the distribution of `random.uniform`.
- Spin catalog and battle catalog are separate tables in the source (`powers` with drop chances, `powers_new` with power types) and are separate inputs here (`Spin.Prize`, `Engine.Power`).
- SHA-256 is the parameter `hash`; malformed JSON, missing or null fields (other than an absent nick or password, which is the empty string) are not modelled.
- The read-only actions `battle_state`, `catalog`, `inventory`, `user_stats`, `get_user_powers`, `admin_get_rarities` and `admin_get_powers`: plain reads with no rules.
- Admin actions (create and delete power or rarity, give spins or money): single-row writes with no rules.
- The `spin` branch only: the powers handler's answer to other POST actions is not modelled.
- The React client (polling, attack-button timing, local storage) is presentation and not part of this model.
