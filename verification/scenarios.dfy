/**
 * Concrete battles, replayed request by request on a two-user database:
 * five plain hits finish a battle, a shield blocks until it expires, and a
 * counter reflects its damage once.
 */
module Scenarios {
  import opened Common
  import opened Tables
  import opened Engine
  import Matchmaking

  /** Two fresh users, 0 and 1, in battle 0 with user 0 as player1. */
  function Start(): Db {
    Db([User("ann", "h", 0, 0, 0, 0), User("bob", "h", 0, 0, 0, 0)],
       [Matchmaking.NewBattle(0, 1)], map[], [], {})
  }

  /** Five plain attacks by player1 take player2 from 10 to 0 and settle the battle once. */
  lemma FivePlainHitsWin()
    ensures var r1 := PlainAttack(Start(), 0, 0, 1000);
            var r2 := PlainAttack(r1.db, 0, 0, 2000);
            var r3 := PlainAttack(r2.db, 0, 0, 3000);
            var r4 := PlainAttack(r3.db, 0, 0, 4000);
            var r5 := PlainAttack(r4.db, 0, 0, 5000);
            && r1.reply == Ok(Struck(10, 8, None))
            && r4.db.battles[0].status == Active
            && r5.reply == Ok(Struck(10, 0, Some(0)))
            && r5.db.users[0] == User("ann", "h", 100, 1, 1, 0)
            && r5.db.users[1] == User("bob", "h", 0, 0, 0, 1)
            && PlainAttack(r5.db, 0, 1, 6000) == Step(Err(BattleNotActive), r5.db)
  {
  }

  /** A 5-second shield of player2 blocks player1 within the window and not after it. */
  lemma ShieldWindow()
    ensures var catalog := map[7 := Power(DefensePower, 10, 0, 5)];
            var s := UsePower(Start(), catalog, 0, 1, 7, 1000);
            && s.reply == Ok(ShieldEffect(5))
            && PlainAttack(s.db, 0, 0, 5999).reply == Ok(Blocked)
            && PlainAttack(s.db, 0, 0, 6000).reply == Ok(Struck(10, 8, None))
  {
  }

  /** A counter of damage 3 by player2 costs the attacking player1 3 HP, once. */
  lemma CounterReflects()
    ensures var catalog := map[8 := Power(CounterPower, 10, 3, 0)];
            var s := UsePower(Start(), catalog, 0, 1, 8, 1000);
            var a1 := PlainAttack(s.db, 0, 0, 2000);
            var a2 := PlainAttack(a1.db, 0, 0, 2500);
            && a1.reply == Ok(Countered(3, 7, 10, None))
            && a2.reply == Ok(Struck(7, 8, None))
  {
  }
}
