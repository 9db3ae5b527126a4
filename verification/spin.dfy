/**
 * The `spin` action of the powers handler: check the spin balance, pick a
 * power by cumulative drop chance against a draw `r` from [0, 100], debit
 * one spin and add the power to the inventory unless it is already owned.
 *
 * The random draw is the parameter `draw`; drop chances are `real`.
 */
module Spin {
  import opened Common
  import opened Tables

  /** A row of the spin catalog: power id and its drop chance. */
  datatype Prize = Prize(id: int, dropChance: real)

  /** The sum of the first `n` drop chances. */
  function Sum(c: seq<Prize>, n: nat): real
    requires n <= |c|
  {
    if n == 0 then 0.0 else Sum(c, n - 1) + c[n - 1].dropChance
  }

  /** The running total once entry `k` has been added. */
  function RunningSum(c: seq<Prize>, k: nat): real
    requires k < |c|
  {
    Sum(c, k + 1)
  }

  /** `k` is the first entry whose running total reaches the draw. */
  ghost predicate FirstReaching(c: seq<Prize>, draw: real, k: nat) {
    && k < |c|
    && draw <= RunningSum(c, k)
    && forall j :: 0 <= j < k ==> RunningSum(c, j) < draw
  }

  /** No running total reaches the draw. */
  ghost predicate NoneReaching(c: seq<Prize>, draw: real) {
    forall j :: 0 <= j < |c| ==> RunningSum(c, j) < draw
  }

  /** The entry the handler hands out: the first reaching the draw, else the first entry. */
  ghost predicate Selected(c: seq<Prize>, draw: real, k: nat) {
    FirstReaching(c, draw, k) || (k == 0 && 0 < |c| && NoneReaching(c, draw))
  }

  /** The loop of the handler: accumulate drop chances until the total reaches the draw. */
  method Pick(c: seq<Prize>, draw: real) returns (k: Option<nat>)
    ensures k.Some? ==> FirstReaching(c, draw, k.value)
    ensures k.None? ==> NoneReaching(c, draw)
  {
    var cumulative := 0.0;
    var i := 0;
    while i < |c|
      invariant 0 <= i <= |c|
      invariant cumulative == Sum(c, i)
      invariant forall j :: 0 <= j < i ==> RunningSum(c, j) < draw
    {
      cumulative := cumulative + c[i].dropChance;
      if draw <= cumulative {
        return Some(i);
      }
      i := i + 1;
    }
    return None;
  }

  /**
   * `spin`: an unknown user or one without spins is refused; an empty
   * catalog makes the handler fail before anything is written; otherwise one
   * spin is spent and the selected power joins the inventory set.
   */
  method DoSpin(db: Db, catalog: seq<Prize>, uid: int, draw: real) returns (s: Step<Prize>)
    ensures !(Known(db.users, uid) && 1 <= db.users[uid].spins) ==> s == Step(Err(NotEnoughSpins), db)
    ensures Known(db.users, uid) && 1 <= db.users[uid].spins && |catalog| == 0 ==> s == Step(Err(EmptyCatalog), db)
    ensures Known(db.users, uid) && 1 <= db.users[uid].spins && 0 < |catalog| ==>
              && s.reply.Ok?
              && (exists k: nat :: Selected(catalog, draw, k) && s.reply.value == catalog[k])
              && |s.db.users| == |db.users|
              && s.db.users[uid] == db.users[uid].(spins := db.users[uid].spins - 1)
              && (forall j :: 0 <= j < |db.users| && j != uid ==> s.db.users[j] == db.users[j])
              && s.db.inventory == db.inventory + {(uid, s.reply.value.id)}
              && s.db.battles == db.battles && s.db.queue == db.queue && s.db.cooldowns == db.cooldowns
    ensures s.reply.Ok? && (uid, s.reply.value.id) in db.inventory ==> s.db.inventory == db.inventory
    ensures s.reply.Ok? && 0 < |catalog| && draw <= Sum(catalog, |catalog|) ==>
              exists k: nat :: FirstReaching(catalog, draw, k) && s.reply.value == catalog[k]
  {
    if !(Known(db.users, uid) && 1 <= db.users[uid].spins) {
      return Step(Err(NotEnoughSpins), db);
    }
    var picked := Pick(catalog, draw);
    var k: nat;
    match picked {
      case Some(i) => k := i;
      case None =>
        if |catalog| == 0 {
          return Step(Err(EmptyCatalog), db);
        }
        k := 0;
    }
    var prize := catalog[k];
    var u := db.users[uid];
    var users := db.users[uid := u.(spins := u.spins - 1)];
    s := Step(Ok(prize), db.(users := users, inventory := db.inventory + {(uid, prize.id)}));
  }

  /** At most one entry is selected for a draw, so the handler's choice is determined by the draw. */
  lemma SelectedIsUnique(c: seq<Prize>, draw: real, k1: nat, k2: nat)
    requires Selected(c, draw, k1) && Selected(c, draw, k2)
    ensures k1 == k2
  {
  }

  /** When the whole catalog's drop chances reach the draw, the first-entry fallback is never taken. */
  lemma NoFallbackWhenTotalReaches(c: seq<Prize>, draw: real, k: nat)
    requires Selected(c, draw, k)
    requires draw <= Sum(c, |c|)
    ensures FirstReaching(c, draw, k)
  {
    assert Sum(c, |c|) == RunningSum(c, |c| - 1);
  }

  /** A larger draw never selects an earlier entry (when neither falls back). */
  lemma SelectionFollowsDraw(c: seq<Prize>, d1: real, d2: real, k1: nat, k2: nat)
    requires d1 <= d2
    requires FirstReaching(c, d1, k1) && FirstReaching(c, d2, k2)
    ensures k1 <= k2
  {
  }
}
