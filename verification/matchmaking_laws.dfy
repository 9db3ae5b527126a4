/**
 * Laws of matchmaking that relate several requests: searching is
 * idempotent, a match is visible to both players, and the queue and battle
 * invariants survive every request.
 */
module MatchmakingLaws {
  import opened Common
  import opened Tables
  import opened Matchmaking

  /** With nobody to pair with, asking again at the same moment changes nothing: the caller is queued once. */
  lemma SearchIsIdempotent(db: Db, uid: int, now: int)
    requires FindMatch(db, uid, now).reply == Ok(Searching)
    ensures var db1 := FindMatch(db, uid, now).db;
            FindMatch(db1, uid, now) == Step(Ok(Searching), db1)
  {
    var db1 := FindMatch(db, uid, now).db;
    assert forall e :: e in db1.queue ==> FreshAt(now)(e);
    KeepAll(db1.queue, FreshAt(now));
    var q := Keep(db1.queue, FreshAt(now));
    assert q == db1.queue;
    assert Earliest(q, uid).None?;
    var e :| e in db1.queue && e.user == uid;
    assert exists e | e in q :: e.user == uid;
  }

  /** A searching caller whose queue rows were unique is queued exactly once. */
  lemma SearchQueuesOnce(db: Db, uid: int, now: int)
    requires UniqueUsers(db.queue)
    requires FindMatch(db, uid, now).reply == Ok(Searching)
    ensures var q := FindMatch(db, uid, now).db.queue;
            |q| == 1 && q[0].user == uid
  {
    var q := FindMatch(db, uid, now).db.queue;
    var e :| e in q && e.user == uid;
    var k :| 0 <= k < |q| && q[k] == e;
    assert UniqueUsers(q);
    forall j | 0 <= j < |q|
      ensures j == k && q[j] == q[k]
    {
      assert q[j] in q;
    }
    assert q[0] == q[k] && q[|q| - 1] == q[k];
  }

  /**
   * A new match is what both players' `check_match` reports, provided
   * neither was already in an active battle.
   */
  lemma MatchVisibleToBoth(db: Db, uid: int, now: int)
    requires FindMatch(db, uid, now).reply.Ok? && FindMatch(db, uid, now).reply.value.Matched?
    requires CheckMatch(db, uid).None?
    requires CheckMatch(db, FindMatch(db, uid, now).reply.value.opponent).None?
    ensures var r := FindMatch(db, uid, now);
            var opp := r.reply.value.opponent;
            var seen := Pairing(|db.battles|, uid, opp, StartHp, StartHp);
            CheckMatch(r.db, uid) == Some(seen) && CheckMatch(r.db, opp) == Some(seen)
  {
    var r := FindMatch(db, uid, now);
    var opp := r.reply.value.opponent;
    var n := |db.battles|;
    assert r.db.battles[n] == NewBattle(uid, opp);
    forall u | u == uid || u == opp
      ensures CheckMatch(r.db, u) == Some(Pairing(n, uid, opp, StartHp, StartHp))
    {
      var c := CheckMatch(r.db, u);
      assert r.db.battles[n].status == Active && Plays(r.db.battles[n], u);
      assert c.Some?;
      assert forall i :: 0 <= i < n ==> r.db.battles[i] == db.battles[i];
      assert c.value.battleId == n;
    }
  }

  /** Matching keeps every battle row well formed: the new battle is active at full HP. */
  lemma FindMatchKeepsConsistent(db: Db, uid: int, now: int)
    requires Consistent(db)
    ensures Consistent(FindMatch(db, uid, now).db)
  {
    var r := FindMatch(db, uid, now);
    forall i | 0 <= i < |r.db.battles|
      ensures WellFormed(r.db.battles[i])
    {
      if i < |db.battles| {
        assert r.db.battles[i] == db.battles[i];
      }
    }
  }

  /**
   * As written, `cancel_search` pays its refund on every call, queued or
   * not: two calls in a row credit 20 and leave the queue as one call does.
   */
  lemma CancelPaysEveryCall(db: Db, uid: int)
    requires Known(db.users, uid)
    ensures var once := CancelSearch(db, uid).db;
            var twice := CancelSearch(once, uid).db;
            && twice.users[uid].money == db.users[uid].money + 2 * CancelReward
            && (forall e :: e in twice.queue <==> e in once.queue)
  {
  }
}
