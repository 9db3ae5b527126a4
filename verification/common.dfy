/** Failure-carrying wrappers shared by every handler of the game backend. */
module Common {

  /** A value that may be absent, as a row that `fetchone()` may not find. */
  datatype Option<+T> = None | Some(value: T)

  /** Every client-facing failure the three handlers report. */
  datatype Error =
    // auth handler
    | MissingCredentials   // empty nick (after trimming) or empty password
    | BadNick              // nick outside [a-zA-Z0-9_]+
    | NickTaken            // register with a nick that is already used
    | InvalidCredentials   // login found no matching row
    | InvalidAction        // an action the handler does not know
    // game handler
    | BattleNotActive      // no such battle, or it is finished
    | NotParticipant       // attacker is neither player
    | PowerOnCooldown      // power used before its `can_use_at`
    | PowerNotFound        // unknown power id
    | InvalidPowerType     // power type is not attack, defense or counter
    | UserNotFound         // cancel_search for an unknown user
    // powers handler
    | NotEnoughSpins       // unknown user or spin balance below 1
    | EmptyCatalog         // spin with no powers at all (the handler crashes)

  /** A handler's answer: a value on success, an error otherwise. */
  datatype Reply<+T> = Ok(value: T) | Err(error: Error)
}
