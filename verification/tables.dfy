/**
 * The database the handlers share, as one immutable value.
 *
 * Every table whose rows carry a serial id is a sequence whose index is the
 * id, so inserting a row is appending it. The cooldown table is keyed by
 * (battle, user, power), the matchmaking queue keeps its rows in insertion
 * order, and the inventory is the set of (user, power) pairs that its unique
 * constraint makes it.
 */
module Tables {
  import opened Common

  /** A row of `users`. */
  datatype User = User(
    nick: string,
    passwordHash: string,
    money: int,
    spins: int,
    wins: int,
    losses: int)

  /** One player's columns of a `battles` row. Times are absolute milliseconds. */
  datatype Side = Side(
    id: int,
    hp: int,
    shieldUntil: int,
    counterUntil: int,
    counterDamage: int)

  datatype Status = Active | Finished

  /** A row of `battles`. */
  datatype Battle = Battle(p1: Side, p2: Side, status: Status, winner: Option<int>)

  /** A row of `matchmaking_queue`. */
  datatype Entry = Entry(user: int, joinedAt: int)

  /** Key of `battle_cooldowns`: (battle id, user id, power id). */
  type CooldownKey = (int, int, int)

  datatype Db = Db(
    users: seq<User>,
    battles: seq<Battle>,
    cooldowns: map<CooldownKey, int>,
    queue: seq<Entry>,
    inventory: set<(int, int)>)

  /** What a request answers, together with the database it leaves behind. */
  datatype Step<+T> = Step(reply: Reply<T>, db: Db)

  /** An id names a row of a serial-id table. */
  predicate Known<T>(rows: seq<T>, id: int) {
    0 <= id < |rows|
  }

  /** `u` is one of the two players of `b`. */
  predicate Plays(b: Battle, u: int) {
    u == b.p1.id || u == b.p2.id
  }

  /**
   * The invariant of a battle row: an active battle has no winner and both
   * players above 0 HP; a finished one has at least one player at or below 0
   * and its winner is player2 exactly when player1 went down.
   */
  ghost predicate WellFormed(b: Battle) {
    && (b.status == Active ==> b.winner == None && 0 < b.p1.hp && 0 < b.p2.hp)
    && (b.status == Finished ==>
          && (b.p1.hp <= 0 || b.p2.hp <= 0)
          && b.winner == Some(if b.p1.hp <= 0 then b.p2.id else b.p1.id))
  }

  ghost predicate Consistent(db: Db) {
    forall i :: 0 <= i < |db.battles| ==> WellFormed(db.battles[i])
  }

  /** Rows of the queue name distinct users (the table's unique constraint). */
  ghost predicate UniqueUsers(q: seq<Entry>) {
    forall i, j :: 0 <= i < |q| && 0 <= j < |q| && q[i].user == q[j].user ==> i == j
  }
}
