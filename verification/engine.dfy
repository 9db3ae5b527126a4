/**
 * The battle engine: plain attacks, power use with cooldowns, and the
 * end-of-battle settlement that credits winner and loser.
 *
 * A request is a pure step from one database to the next; the clock is the
 * parameter `now`, in integer milliseconds.
 */
module Engine {
  import opened Common
  import opened Tables

  /** Damage of the plain `attack` action. */
  const PlainDamage := 2
  /** How long a counter stance lasts. */
  const CounterWindowMs := 3000
  /** Settlement credits of the winner. */
  const WinMoney := 100
  const WinSpins := 1

  /** The `power_type` column; any other text is kept as `Unrecognized`. */
  datatype Kind = AttackPower | DefensePower | CounterPower | Unrecognized

  /** A row of the battle power catalog. Durations are in seconds. */
  datatype Power = Power(kind: Kind, cooldown: int, damage: int, shieldDuration: int)

  /** How an attack resolved; hp1, hp2 and winner describe the battle after it. */
  datatype Hit =
    | Blocked
    | Countered(damageTaken: int, hp1: int, hp2: int, winner: Option<int>)
    | Struck(hp1: int, hp2: int, winner: Option<int>)

  /** What a power use did. */
  datatype Effect = AttackEffect(hit: Hit) | ShieldEffect(seconds: int) | CounterEffect

  /** The battle with id `id` exists and is still active. */
  predicate Live(db: Db, id: int) {
    Known(db.battles, id) && db.battles[id].status == Active
  }

  /** The handlers decide sides by `user == player1_id`: everyone else acts as player2. */
  predicate IsFirst(b: Battle, u: int) {
    u == b.p1.id
  }

  function SideOf(b: Battle, first: bool): Side {
    if first then b.p1 else b.p2
  }

  function WithSide(b: Battle, first: bool, s: Side): Battle {
    if first then b.(p1 := s) else b.(p2 := s)
  }

  /** The side `u` acts from. */
  function Own(b: Battle, u: int): Side {
    SideOf(b, IsFirst(b, u))
  }

  /** The side `u` acts against. */
  function Opposing(b: Battle, u: int): Side {
    SideOf(b, !IsFirst(b, u))
  }

  /** The settlement credit of one user row, by whether it won and whether it lost. */
  function Adjust(u: User, won: bool, lost: bool): User {
    u.(wins := u.wins + (if won then 1 else 0),
       money := u.money + (if won then WinMoney else 0),
       spins := u.spins + (if won then WinSpins else 0),
       losses := u.losses + (if lost then 1 else 0))
  }

  /** `after` is `before` with user `w` credited a win and user `l` a loss. */
  ghost predicate Rewarded(before: seq<User>, after: seq<User>, w: int, l: int) {
    && |after| == |before|
    && forall k :: 0 <= k < |before| ==> after[k] == Adjust(before[k], k == w, k == l)
  }

  /**
   * `b'` and `after` are what settlement makes of a battle whose sides are
   * those of `b'` and whose status and winner were those of `b`.
   */
  ghost predicate Concluded(before: seq<User>, after: seq<User>, b: Battle, b': Battle) {
    if b'.p1.hp <= 0 then
      b'.status == Finished && b'.winner == Some(b'.p2.id) && Rewarded(before, after, b'.p2.id, b'.p1.id)
    else if b'.p2.hp <= 0 then
      b'.status == Finished && b'.winner == Some(b'.p1.id) && Rewarded(before, after, b'.p1.id, b'.p2.id)
    else
      b'.status == b.status && b'.winner == b.winner && after == before
  }

  /** UPDATE users ... WHERE id = `id`: no row, no change. */
  function Credit(users: seq<User>, id: int, won: bool, lost: bool): seq<User> {
    if Known(users, id) then users[id := Adjust(users[id], won, lost)] else users
  }

  datatype Settlement = Settlement(users: seq<User>, battle: Battle)

  /** `check_battle_end`: player1 at or below 0 loses first, then player2. */
  function Settle(users: seq<User>, b: Battle): (r: Settlement)
    ensures r.battle.p1 == b.p1 && r.battle.p2 == b.p2
    ensures Concluded(users, r.users, b, r.battle)
  {
    if b.p1.hp <= 0 then
      var credited := Credit(Credit(users, b.p2.id, true, false), b.p1.id, false, true);
      Settlement(credited, b.(status := Finished, winner := Some(b.p2.id)))
    else if b.p2.hp <= 0 then
      var credited := Credit(Credit(users, b.p1.id, true, false), b.p2.id, false, true);
      Settlement(credited, b.(status := Finished, winner := Some(b.p1.id)))
    else
      Settlement(users, b)
  }

  /** `db'` differs from `db` at most in the users and in battle `id`. */
  ghost predicate BattleFrame(db: Db, db': Db, id: int) {
    && |db'.battles| == |db.battles|
    && (forall j :: 0 <= j < |db.battles| && j != id ==> db'.battles[j] == db.battles[j])
    && db'.cooldowns == db.cooldowns
    && db'.queue == db.queue
    && db'.inventory == db.inventory
  }

  /** The attacker may act: the battle is active and the attacker plays in it. */
  ghost predicate Engaged(db: Db, id: int, attacker: int) {
    Live(db, id) && Plays(db.battles[id], attacker)
  }

  /**
   * `handle_attack`: a shield blocks, else a counter reflects its stored
   * damage onto the attacker and is spent, else the defender loses `damage`.
   * HP is never clamped.
   */
  function Attack(db: Db, id: int, attacker: int, damage: int, now: int): (r: Step<Hit>)
    ensures !Live(db, id) ==> r == Step(Err(BattleNotActive), db)
    ensures Live(db, id) && !Plays(db.battles[id], attacker) ==> r == Step(Err(NotParticipant), db)
    ensures Engaged(db, id, attacker) ==> r.reply.Ok? && BattleFrame(db, r.db, id)
    ensures Engaged(db, id, attacker) && now < Opposing(db.battles[id], attacker).shieldUntil ==>
              r == Step(Ok(Blocked), db)
    ensures Engaged(db, id, attacker) && !r.reply.value.Blocked? ==>
              var b, b' := db.battles[id], r.db.battles[id];
              && IsFirst(b', attacker) == IsFirst(b, attacker)
              && Concluded(db.users, r.db.users, b, b')
              && r.reply.value.hp1 == b'.p1.hp && r.reply.value.hp2 == b'.p2.hp
              && r.reply.value.winner == b'.winner
    ensures Engaged(db, id, attacker) && Opposing(db.battles[id], attacker).shieldUntil <= now
              && now < Opposing(db.battles[id], attacker).counterUntil ==>
              var b, b' := db.battles[id], r.db.battles[id];
              var att, def := Own(b, attacker), Opposing(b, attacker);
              && r.reply.value.Countered?
              && r.reply.value.damageTaken == def.counterDamage
              && Own(b', attacker) == att.(hp := att.hp - def.counterDamage)
              && Opposing(b', attacker) == def.(counterUntil := 0)
    ensures Engaged(db, id, attacker) && Opposing(db.battles[id], attacker).shieldUntil <= now
              && Opposing(db.battles[id], attacker).counterUntil <= now ==>
              var b, b' := db.battles[id], r.db.battles[id];
              var def := Opposing(b, attacker);
              && r.reply.value.Struck?
              && Own(b', attacker) == Own(b, attacker)
              && Opposing(b', attacker) == def.(hp := def.hp - damage)
  {
    if !Live(db, id) then Step(Err(BattleNotActive), db)
    else
      var b := db.battles[id];
      var first := IsFirst(b, attacker);
      if !first && attacker != b.p2.id then Step(Err(NotParticipant), db)
      else
        var att, def := SideOf(b, first), SideOf(b, !first);
        if now < def.shieldUntil then Step(Ok(Blocked), db)
        else if now < def.counterUntil then
          var hurt := WithSide(WithSide(b, !first, def.(counterUntil := 0)), first, att.(hp := att.hp - def.counterDamage));
          var s := Settle(db.users, hurt);
          Step(Ok(Countered(def.counterDamage, s.battle.p1.hp, s.battle.p2.hp, s.battle.winner)),
               db.(users := s.users, battles := db.battles[id := s.battle]))
        else
          var hurt := WithSide(b, !first, def.(hp := def.hp - damage));
          var s := Settle(db.users, hurt);
          Step(Ok(Struck(s.battle.p1.hp, s.battle.p2.hp, s.battle.winner)),
               db.(users := s.users, battles := db.battles[id := s.battle]))
  }

  /** The plain `attack` action: an unshielded, uncountered defender loses exactly 2 HP. */
  function PlainAttack(db: Db, id: int, attacker: int, now: int): (r: Step<Hit>)
    ensures Engaged(db, id, attacker) && Opposing(db.battles[id], attacker).shieldUntil <= now
              && Opposing(db.battles[id], attacker).counterUntil <= now ==>
              && |r.db.battles| == |db.battles|
              && Opposing(r.db.battles[id], attacker).hp == Opposing(db.battles[id], attacker).hp - 2
  {
    Attack(db, id, attacker, PlainDamage, now)
  }

  /** A cooldown row exists for `key` and has not yet run out. */
  predicate OnCooldown(db: Db, key: CooldownKey, now: int) {
    key in db.cooldowns && now < db.cooldowns[key]
  }

  /** Every gate of `handle_power_use` passes, so the power takes effect and its cooldown starts. */
  ghost predicate Applies(db: Db, catalog: map<int, Power>, id: int, user: int, powerId: int, now: int) {
    && !OnCooldown(db, (id, user, powerId), now)
    && powerId in catalog
    && Live(db, id)
    && catalog[powerId].kind != Unrecognized
  }

  /** `db'` differs from `db` at most in battle `id` and the cooldown row `key`. */
  ghost predicate PowerFrame(db: Db, db': Db, id: int) {
    && db'.users == db.users
    && |db'.battles| == |db.battles|
    && (forall j :: 0 <= j < |db.battles| && j != id ==> db'.battles[j] == db.battles[j])
    && db'.queue == db.queue
    && db'.inventory == db.inventory
  }

  /**
   * `handle_power_use`: reject a cooling-down power, an unknown power, an
   * inactive battle or an unknown type, in that order; otherwise apply the
   * effect and start the cooldown, even when the attack it made was blocked
   * or rejected.
   */
  function UsePower(db: Db, catalog: map<int, Power>, id: int, user: int, powerId: int, now: int): (r: Step<Effect>)
    ensures OnCooldown(db, (id, user, powerId), now) ==> r == Step(Err(PowerOnCooldown), db)
    ensures !OnCooldown(db, (id, user, powerId), now) && powerId !in catalog ==>
              r == Step(Err(PowerNotFound), db)
    ensures !OnCooldown(db, (id, user, powerId), now) && powerId in catalog && !Live(db, id) ==>
              r == Step(Err(BattleNotActive), db)
    ensures !OnCooldown(db, (id, user, powerId), now) && powerId in catalog && Live(db, id)
              && catalog[powerId].kind == Unrecognized ==>
              r == Step(Err(InvalidPowerType), db)
    ensures Applies(db, catalog, id, user, powerId, now) ==>
              && r.db.cooldowns == db.cooldowns[(id, user, powerId) := now + catalog[powerId].cooldown * 1000]
              && |r.db.battles| == |db.battles|
    ensures Applies(db, catalog, id, user, powerId, now) && catalog[powerId].kind == DefensePower ==>
              var b, b' := db.battles[id], r.db.battles[id];
              && r.reply == Ok(ShieldEffect(catalog[powerId].shieldDuration))
              && PowerFrame(db, r.db, id)
              && IsFirst(b', user) == IsFirst(b, user)
              && Own(b', user) == Own(b, user).(shieldUntil := now + catalog[powerId].shieldDuration * 1000)
              && Opposing(b', user) == Opposing(b, user)
              && b'.status == b.status && b'.winner == b.winner
    ensures Applies(db, catalog, id, user, powerId, now) && catalog[powerId].kind == CounterPower ==>
              var b, b' := db.battles[id], r.db.battles[id];
              && r.reply == Ok(CounterEffect)
              && PowerFrame(db, r.db, id)
              && IsFirst(b', user) == IsFirst(b, user)
              && Own(b', user) == Own(b, user).(counterUntil := now + CounterWindowMs,
                                                counterDamage := catalog[powerId].damage)
              && Opposing(b', user) == Opposing(b, user)
              && b'.status == b.status && b'.winner == b.winner
    ensures Applies(db, catalog, id, user, powerId, now) && catalog[powerId].kind == AttackPower ==>
              var a := Attack(db, id, user, catalog[powerId].damage, now);
              && (a.reply.Ok? ==> r.reply == Ok(AttackEffect(a.reply.value)))
              && (a.reply.Err? ==> r.reply == Err(a.reply.error))
              && r.db.(cooldowns := db.cooldowns) == a.db
  {
    var key := (id, user, powerId);
    if OnCooldown(db, key, now) then Step(Err(PowerOnCooldown), db)
    else if powerId !in catalog then Step(Err(PowerNotFound), db)
    else if !Live(db, id) then Step(Err(BattleNotActive), db)
    else
      var p := catalog[powerId];
      var b := db.battles[id];
      var first := IsFirst(b, user);
      var me := SideOf(b, first);
      var cooled := db.cooldowns[key := now + p.cooldown * 1000];
      match p.kind
      case AttackPower =>
        var a := Attack(db, id, user, p.damage, now);
        var reply := match a.reply
          case Ok(hit) => Ok(AttackEffect(hit))
          case Err(e) => Err(e);
        Step(reply, a.db.(cooldowns := cooled))
      case DefensePower =>
        var b' := WithSide(b, first, me.(shieldUntil := now + p.shieldDuration * 1000));
        Step(Ok(ShieldEffect(p.shieldDuration)), db.(battles := db.battles[id := b'], cooldowns := cooled))
      case CounterPower =>
        var b' := WithSide(b, first, me.(counterUntil := now + CounterWindowMs, counterDamage := p.damage));
        Step(Ok(CounterEffect), db.(battles := db.battles[id := b'], cooldowns := cooled))
      case Unrecognized => Step(Err(InvalidPowerType), db)
  }
}
