/**
 * fix-user-ids.js: the one-off backfill that visits every user once and
 * gives each user without a numeric id the next value of the `userId`
 * counter, saving it; users that have an id are left alone.
 */
module FixUserIds {
  import opened Wrappers
  import opened Schema
  import opened Store

  /** The number of users in `us` without a numeric id. */
  function Lacking(us: seq<UserRec>): (n: nat)
    ensures n <= |us|
  {
    if us == [] then 0
    else Lacking(us[..|us| - 1]) + (if HasNumericId(us[|us| - 1]) then 0 else 1)
  }

  /**
   * The user at position `k` after the backfill: unchanged when it had an
   * id, else numbered by the counter's start `c0` plus the users lacking an
   * id up to and including it.
   */
  function Backfilled(us: seq<UserRec>, c0: int, k: nat): (u: UserRec)
    requires k < |us|
    ensures HasNumericId(us[k]) ==> u == us[k]
    ensures !HasNumericId(us[k]) ==> u == us[k].(id := Some(c0 + Lacking(us[..k + 1])))
  {
    if HasNumericId(us[k]) then us[k] else us[k].(id := Some(c0 + Lacking(us[..k + 1])))
  }

  /** Nothing is lacking exactly when every user has a numeric id, so the script then changes nobody. */
  lemma {:induction false} NoneLacking(us: seq<UserRec>)
    ensures Lacking(us) == 0 <==> forall k :: 0 <= k < |us| ==> HasNumericId(us[k])
  {
    if us != [] {
      var init := us[..|us| - 1];
      NoneLacking(init);
      assert forall k :: 0 <= k < |init| ==> init[k] == us[k];
    }
  }

  /** Counting one more user adds one exactly when that user lacks an id. */
  lemma LackingStep(us: seq<UserRec>, i: nat)
    requires i < |us|
    ensures Lacking(us[..i + 1]) == Lacking(us[..i]) + (if HasNumericId(us[i]) then 0 else 1)
  {
    assert us[..i + 1][..i] == us[..i];
  }

  /** Numbers handed out by the backfill increase along the users, so no two are equal. */
  lemma {:induction false} BackfillDistinct(us: seq<UserRec>, c0: int, j: nat, k: nat)
    requires j < k < |us| && !HasNumericId(us[j]) && !HasNumericId(us[k])
    ensures Backfilled(us, c0, j).id.value < Backfilled(us, c0, k).id.value
  {
    LackingGrows(us, j + 1, k);
    LackingStep(us, k);
  }

  lemma {:induction false} LackingGrows(us: seq<UserRec>, a: nat, b: nat)
    requires a <= b <= |us|
    ensures Lacking(us[..a]) <= Lacking(us[..b])
    decreases b - a
  {
    if a < b {
      LackingStep(us, a);
      LackingGrows(us, a + 1, b);
    }
  }

  /**
   * The loop over `User.find({})`: afterwards every user has a truthy
   * numeric id, users that had one are unchanged, and the counter has moved
   * on by one per user that lacked one.
   */
  method Run(db: Db) returns (backfilled: nat)
    requires db.Valid()
    modifies db
    ensures db.Valid()
    ensures |db.users| == |old(db.users)|
    ensures forall k :: 0 <= k < |db.users| ==> db.users[k] == Backfilled(old(db.users), old(db.Counter(UserCounter)), k)
    ensures forall k :: 0 <= k < |db.users| ==> HasNumericId(db.users[k])
    ensures backfilled == Lacking(old(db.users))
    ensures db.Counter(UserCounter) == old(db.Counter(UserCounter)) + backfilled
    ensures db.tasks == old(db.tasks) && db.blobs == old(db.blobs) && db.clock == old(db.clock)
  {
    ghost var before := db.users;
    ghost var c0 := db.Counter(UserCounter);
    var i := 0;
    backfilled := 0;
    while i < |db.users|
      invariant db.Valid()
      invariant 0 <= i <= |db.users| == |before|
      invariant forall k :: 0 <= k < i ==> db.users[k] == Backfilled(before, c0, k)
      invariant forall k :: i <= k < |db.users| ==> db.users[k] == before[k]
      invariant backfilled == Lacking(before[..i])
      invariant db.Counter(UserCounter) == c0 + backfilled
      invariant db.tasks == old(db.tasks) && db.blobs == old(db.blobs) && db.clock == old(db.clock)
    {
      LackingStep(before, i);
      if !HasNumericId(db.users[i]) {
        var n := db.AssignUserId(i);
        backfilled := backfilled + 1;
        assert n == c0 + Lacking(before[..i + 1]);
      }
      assert db.users[i] == Backfilled(before, c0, i);
      i := i + 1;
    }
    assert before[..i] == before;
    forall k | 0 <= k < |db.users|
      ensures HasNumericId(db.users[k])
    {
      assert UserOk(db.users[k], db.Counter(UserCounter), db.clock);
    }
  }
}
