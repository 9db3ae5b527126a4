/**
 * Laws of the battle engine that relate several requests: one-shot
 * counters, cooldown gating, terminal finished battles, settlement at most
 * once, and the battle-row invariant every request keeps.
 */
module BattleLaws {
  import opened Common
  import opened Tables
  import opened Engine

  /** A counter fires at most once: an immediate second attack is not countered again. */
  lemma CounterIsOneShot(db: Db, id: int, attacker: int, d1: int, d2: int, now: int)
    requires 0 <= now
    requires Attack(db, id, attacker, d1, now).reply.Ok?
    requires Attack(db, id, attacker, d1, now).reply.value.Countered?
    ensures var db1 := Attack(db, id, attacker, d1, now).db;
            var second := Attack(db1, id, attacker, d2, now);
            second.reply.Err? || second.reply.value.Struck?
  {
    var r := Attack(db, id, attacker, d1, now);
    assert Engaged(db, id, attacker);
    var b, b' := db.battles[id], r.db.battles[id];
    assert Opposing(b', attacker).counterUntil == 0;
    assert Opposing(b', attacker).shieldUntil == Opposing(b, attacker).shieldUntil <= now;
    if Engaged(r.db, id, attacker) {
      var second := Attack(r.db, id, attacker, d2, now);
      assert second.reply.value.Struck?;
    }
  }

  /** Once a power took effect, reusing it before `cooldown` seconds have passed is refused and changes nothing. */
  lemma CooldownGates(db: Db, catalog: map<int, Power>, id: int, user: int, powerId: int, now: int, later: int)
    requires Applies(db, catalog, id, user, powerId, now)
    requires later < now + catalog[powerId].cooldown * 1000
    ensures var db1 := UsePower(db, catalog, id, user, powerId, now).db;
            UsePower(db1, catalog, id, user, powerId, later) == Step(Err(PowerOnCooldown), db1)
  {
    var db1 := UsePower(db, catalog, id, user, powerId, now).db;
    assert OnCooldown(db1, (id, user, powerId), later);
  }

  /** Once the cooldown has run out, the cooldown gate no longer refuses the power. */
  lemma CooldownLapses(db: Db, catalog: map<int, Power>, id: int, user: int, powerId: int, now: int, later: int)
    requires Applies(db, catalog, id, user, powerId, now)
    requires now + catalog[powerId].cooldown * 1000 <= later
    ensures var db1 := UsePower(db, catalog, id, user, powerId, now).db;
            UsePower(db1, catalog, id, user, powerId, later).reply != Err(PowerOnCooldown)
  {
    var db1 := UsePower(db, catalog, id, user, powerId, now).db;
    assert !OnCooldown(db1, (id, user, powerId), later);
    var b := db.battles[id];
    var k := catalog[powerId].kind;
    if k == AttackPower {
      var a := Attack(db, id, user, catalog[powerId].damage, now);
      assert db1.(cooldowns := db.cooldowns) == a.db;
      if Engaged(db, id, user) {
        assert a.reply.Ok?;
      }
    }
  }

  /** A finished battle is terminal: no attack or power use changes anything, so its winner stays. */
  lemma FinishedBattleIsFrozen(db: Db, catalog: map<int, Power>, id: int, user: int, damage: int, powerId: int, now: int)
    requires Known(db.battles, id) && db.battles[id].status == Finished
    ensures Attack(db, id, user, damage, now) == Step(Err(BattleNotActive), db)
    ensures UsePower(db, catalog, id, user, powerId, now).db == db
    ensures UsePower(db, catalog, id, user, powerId, now).reply.Err?
  {
  }

  /**
   * Settlement happens exactly when an attack finishes the battle: users
   * change only then, the winner gains a win, 100 money and a spin, and the
   * loser gains a loss.
   */
  lemma SettlementExactlyOnFinish(db: Db, id: int, attacker: int, damage: int, now: int)
    requires Consistent(db)
    ensures var r := Attack(db, id, attacker, damage, now);
            r.db.users != db.users ==>
              && db.battles[id].status == Active
              && r.db.battles[id].status == Finished
    ensures var r := Attack(db, id, attacker, damage, now);
            Known(db.battles, id) && db.battles[id].status == Active && r.db.battles[id].status == Finished ==>
              var b' := r.db.battles[id];
              if b'.p1.hp <= 0 then
                b'.winner == Some(b'.p2.id) && Rewarded(db.users, r.db.users, b'.p2.id, b'.p1.id)
              else
                b'.winner == Some(b'.p1.id) && Rewarded(db.users, r.db.users, b'.p1.id, b'.p2.id)
  {
    var r := Attack(db, id, attacker, damage, now);
    if Engaged(db, id, attacker) && !r.reply.value.Blocked? {
      var b, b' := db.battles[id], r.db.battles[id];
      assert WellFormed(b);
      assert Concluded(db.users, r.db.users, b, b');
    }
  }

  /** Every attack keeps every battle row well formed. */
  lemma AttackKeepsConsistent(db: Db, id: int, attacker: int, damage: int, now: int)
    requires Consistent(db)
    ensures Consistent(Attack(db, id, attacker, damage, now).db)
  {
    var r := Attack(db, id, attacker, damage, now);
    if Engaged(db, id, attacker) && !r.reply.value.Blocked? {
      var b, b' := db.battles[id], r.db.battles[id];
      assert WellFormed(b);
      assert Concluded(db.users, r.db.users, b, b');
      assert WellFormed(b');
      forall i | 0 <= i < |r.db.battles|
        ensures WellFormed(r.db.battles[i])
      {
        if i != id {
          assert r.db.battles[i] == db.battles[i];
        }
      }
    }
  }

  /** Every power use keeps every battle row well formed: shields and counters leave HP, status and winner alone. */
  lemma UsePowerKeepsConsistent(db: Db, catalog: map<int, Power>, id: int, user: int, powerId: int, now: int)
    requires Consistent(db)
    ensures Consistent(UsePower(db, catalog, id, user, powerId, now).db)
  {
    var r := UsePower(db, catalog, id, user, powerId, now);
    if Applies(db, catalog, id, user, powerId, now) {
      var k := catalog[powerId].kind;
      if k == AttackPower {
        AttackKeepsConsistent(db, id, user, catalog[powerId].damage, now);
        assert r.db.battles == Attack(db, id, user, catalog[powerId].damage, now).db.battles;
      } else {
        var b, b' := db.battles[id], r.db.battles[id];
        assert WellFormed(b);
        assert b'.p1.hp == b.p1.hp && b'.p2.hp == b.p2.hp && b'.p1.id == b.p1.id && b'.p2.id == b.p2.id;
        assert WellFormed(b');
        forall i | 0 <= i < |r.db.battles|
          ensures WellFormed(r.db.battles[i])
        {
          if i != id {
            assert r.db.battles[i] == db.battles[i];
          }
        }
      }
    }
  }

  /**
   * As written, a user who plays in neither side and uses a defense power
   * raises player2's shield: the handler treats every non-player1 as player2.
   */
  lemma OutsiderShieldsPlayerTwo(db: Db, catalog: map<int, Power>, id: int, user: int, powerId: int, now: int)
    requires Applies(db, catalog, id, user, powerId, now)
    requires catalog[powerId].kind == DefensePower
    requires !Plays(db.battles[id], user)
    ensures var r := UsePower(db, catalog, id, user, powerId, now);
            && r.reply.Ok?
            && r.db.battles[id].p2.shieldUntil == now + catalog[powerId].shieldDuration * 1000
            && r.db.battles[id].p1 == db.battles[id].p1
  {
  }

  /** As written, an outsider's attack power is refused by the attack, yet its cooldown still starts. */
  lemma OutsiderAttackPowerStillCoolsDown(db: Db, catalog: map<int, Power>, id: int, user: int, powerId: int, now: int)
    requires Applies(db, catalog, id, user, powerId, now)
    requires catalog[powerId].kind == AttackPower
    requires !Plays(db.battles[id], user)
    ensures var r := UsePower(db, catalog, id, user, powerId, now);
            && r.reply == Err(NotParticipant)
            && r.db.battles == db.battles && r.db.users == db.users
            && (id, user, powerId) in r.db.cooldowns
  {
  }
}
