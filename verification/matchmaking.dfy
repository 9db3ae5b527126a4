/**
 * The matchmaking branches of the game handler: `find_match` expires stale
 * queue rows and pairs the caller with the earliest other waiting user (or
 * queues the caller), `cancel_search` leaves the queue with a small refund,
 * and `check_match` reports an active battle the caller plays in.
 */
module Matchmaking {
  import opened Common
  import opened Tables

  /** Queue rows older than this are deleted by every `find_match`. */
  const QueueTimeoutMs := 25000
  /** Money credited by `cancel_search`. */
  const CancelReward := 10
  /** HP of both players in a new battle. */
  const StartHp := 10

  /** The row survives `DELETE ... WHERE joined_at < NOW() - INTERVAL '25 seconds'`. */
  predicate Fresh(e: Entry, now: int) {
    now - QueueTimeoutMs <= e.joinedAt
  }

  /** `Fresh` at time `now`, as the condition of a DELETE. */
  function FreshAt(now: int): Entry -> bool {
    (e: Entry) => Fresh(e, now)
  }

  /** The rows of `q` that satisfy `p`, in their order (the survivors of a DELETE). */
  function Keep(q: seq<Entry>, p: Entry -> bool): (r: seq<Entry>)
    ensures forall e :: e in r <==> e in q && p(e)
    ensures |r| <= |q|
    ensures UniqueUsers(q) ==> UniqueUsers(r)
  {
    if |q| == 0 then []
    else
      var rest := Keep(q[1..], p);
      assert forall e :: e in q <==> e == q[0] || e in q[1..];
      if p(q[0]) then
        assert UniqueUsers(q) ==> forall e :: e in rest ==> e.user != q[0].user by {
          if UniqueUsers(q) {
            forall e | e in rest
              ensures e.user != q[0].user
            {
              var k :| 0 <= k < |q[1..]| && q[1..][k] == e;
              assert q[k + 1] == e;
            }
          }
        }
        [q[0]] + rest
      else rest
  }

  /** Keeping what already satisfies `p` keeps everything. */
  lemma {:induction false} KeepAll(q: seq<Entry>, p: Entry -> bool)
    requires forall e :: e in q ==> p(e)
    ensures Keep(q, p) == q
  {
    if |q| > 0 {
      assert forall e :: e in q[1..] ==> e in q;
      KeepAll(q[1..], p);
      assert q == [q[0]] + q[1..];
    }
  }

  /**
   * The position of the earliest row of a user other than `uid`; among rows
   * with the same `joined_at` the one queued first.
   */
  function Earliest(q: seq<Entry>, uid: int): (k: Option<nat>)
    ensures k.None? <==> forall i :: 0 <= i < |q| ==> q[i].user == uid
    ensures k.Some? ==> k.value < |q| && q[k.value].user != uid
    ensures k.Some? ==> forall i :: 0 <= i < |q| && q[i].user != uid ==> q[k.value].joinedAt <= q[i].joinedAt
    ensures k.Some? ==> forall i :: 0 <= i < k.value && q[i].user != uid ==> q[k.value].joinedAt < q[i].joinedAt
  {
    if |q| == 0 then None
    else
      var k := Earliest(q[..|q| - 1], uid);
      var last := q[|q| - 1];
      if last.user != uid && (k.None? || last.joinedAt < q[k.value].joinedAt) then Some(|q| - 1)
      else k
  }

  /** The row a fresh battle gets: both at full HP, no shield, no counter, active. */
  function NewBattle(p1: int, p2: int): Battle {
    Battle(Side(p1, StartHp, 0, 0, 0), Side(p2, StartHp, 0, 0, 0), Active, None)
  }

  datatype Found = Matched(battleId: int, opponent: int) | Searching

  /** Some fresh row of the queue belongs to a user other than `uid`. */
  ghost predicate OpponentWaiting(db: Db, uid: int, now: int) {
    exists e :: e in db.queue && Fresh(e, now) && e.user != uid
  }

  /**
   * `find_match`: the caller becomes player1 of a battle against the
   * earliest fresh other user, and both leave the queue; with nobody to
   * pair with, the caller is queued unless a fresh row of theirs is there.
   */
  function FindMatch(db: Db, uid: int, now: int): (r: Step<Found>)
    ensures r.reply.Ok?
    ensures r.db.users == db.users && r.db.cooldowns == db.cooldowns && r.db.inventory == db.inventory
    ensures r.reply.value.Matched? <==> OpponentWaiting(db, uid, now)
    ensures r.reply.value.Matched? ==>
              var opp := r.reply.value.opponent;
              && opp != uid
              && r.reply.value.battleId == |db.battles|
              && r.db.battles == db.battles + [NewBattle(uid, opp)]
              && (exists e :: e in db.queue && Fresh(e, now) && e.user == opp
                    && forall f :: f in db.queue && Fresh(f, now) && f.user != uid ==> e.joinedAt <= f.joinedAt)
              && (forall e :: e in r.db.queue <==> e in db.queue && Fresh(e, now) && e.user != uid && e.user != opp)
    ensures r.reply.value.Searching? ==>
              && r.db.battles == db.battles
              && (exists e :: e in r.db.queue && e.user == uid)
              && (forall e :: e in r.db.queue ==>
                    e.user == uid && ((e in db.queue && Fresh(e, now)) || e == Entry(uid, now)))
              && (forall e :: e in db.queue && Fresh(e, now) ==> e in r.db.queue)
    ensures UniqueUsers(db.queue) ==> UniqueUsers(r.db.queue)
  {
    var q := Keep(db.queue, FreshAt(now));
    match Earliest(q, uid)
    case Some(k) =>
      var opp := q[k].user;
      assert q[k] in q;
      Step(Ok(Matched(|db.battles|, opp)),
           db.(battles := db.battles + [NewBattle(uid, opp)],
               queue := Keep(q, (e: Entry) => e.user != uid && e.user != opp)))
    case None =>
      assert forall e :: e in q ==> e.user == uid;
      var queued := exists e | e in q :: e.user == uid;
      var q' := if queued then q else q + [Entry(uid, now)];
      assert !queued ==> UniqueUsers(q) ==> |q| == 0;
      Step(Ok(Searching), db.(queue := q'))
  }

  /** `cancel_search`: leave the queue (if there) and collect 10 money, or fail for an unknown user. */
  function CancelSearch(db: Db, uid: int): (r: Step<int>)
    ensures forall e :: e in r.db.queue <==> e in db.queue && e.user != uid
    ensures r.db.battles == db.battles && r.db.cooldowns == db.cooldowns && r.db.inventory == db.inventory
    ensures |r.db.users| == |db.users|
    ensures forall j :: 0 <= j < |db.users| && j != uid ==> r.db.users[j] == db.users[j]
    ensures Known(db.users, uid) ==>
              && r.reply == Ok(db.users[uid].money + CancelReward)
              && r.db.users[uid] == db.users[uid].(money := db.users[uid].money + CancelReward)
    ensures !Known(db.users, uid) ==> r.reply == Err(UserNotFound) && r.db.users == db.users
    ensures UniqueUsers(db.queue) ==> UniqueUsers(r.db.queue)
  {
    var q := Keep(db.queue, (e: Entry) => e.user != uid);
    if Known(db.users, uid) then
      var u := db.users[uid];
      Step(Ok(u.money + CancelReward), db.(queue := q, users := db.users[uid := u.(money := u.money + CancelReward)]))
    else
      Step(Err(UserNotFound), db.(queue := q))
  }

  /** The lowest-id active battle in which `uid` plays. */
  function FirstActive(bs: seq<Battle>, uid: int): (k: Option<nat>)
    ensures k.None? <==> forall i :: 0 <= i < |bs| ==> !(bs[i].status == Active && Plays(bs[i], uid))
    ensures k.Some? ==> k.value < |bs| && bs[k.value].status == Active && Plays(bs[k.value], uid)
    ensures k.Some? ==> forall i :: 0 <= i < k.value ==> !(bs[i].status == Active && Plays(bs[i], uid))
  {
    if |bs| == 0 then None
    else
      var k := FirstActive(bs[..|bs| - 1], uid);
      if k.Some? then k
      else if bs[|bs| - 1].status == Active && Plays(bs[|bs| - 1], uid) then Some(|bs| - 1)
      else None
  }

  /** What `check_match` answers when it finds a battle. */
  datatype Pairing = Pairing(battleId: int, p1: int, p2: int, hp1: int, hp2: int)

  /** `check_match`: report an active battle the caller plays in, if any. */
  function CheckMatch(db: Db, uid: int): (r: Option<Pairing>)
    ensures r.None? <==> forall i :: 0 <= i < |db.battles| ==> !(db.battles[i].status == Active && Plays(db.battles[i], uid))
    ensures r.Some? ==>
              var id := r.value.battleId;
              && Known(db.battles, id)
              && db.battles[id].status == Active
              && Plays(db.battles[id], uid)
              && r.value == Pairing(id, db.battles[id].p1.id, db.battles[id].p2.id, db.battles[id].p1.hp, db.battles[id].p2.hp)
  {
    match FirstActive(db.battles, uid)
    case Some(k) =>
      var b := db.battles[k];
      Some(Pairing(k, b.p1.id, b.p2.id, b.p1.hp, b.p2.hp))
    case None => None
  }
}
