/**
 The midnight coin grant. Every verified user whose balance would stay
 within the cap after the grant receives the daily amount; everyone else is
 left alone. There is a scheduled run and a manual trigger; they apply the
 same rule but count differently.
 */
module DailyCoins {
  import opened Wrappers
  import opened Collections
  import opened Text

  datatype User = User(id: string, email: string, isVerified: bool, coins: int)

  /** No grant may lift a balance above this. */
  const Cap := 20

  /** Whether the grant of `amount` goes to this user. */
  predicate Eligible(u: User, amount: int) {
    u.isVerified && u.coins + amount <= Cap
  }

  /** The user after the grant rule: credited by exactly `amount` when eligible, untouched otherwise. */
  function Granted(u: User, amount: int): (v: User)
    ensures v.id == u.id && v.email == u.email && v.isVerified == u.isVerified
    ensures Eligible(u, amount) ==> v.coins - u.coins == amount && v.coins <= Cap
    ensures !Eligible(u, amount) ==> v == u
  {
    if Eligible(u, amount) then u.(coins := u.coins + amount) else u
  }

  function IdOf(u: User): string { u.id }

  /** The number of verified users. */
  function VerifiedCount(users: seq<User>): (n: nat)
    ensures n <= |users|
  {
    if users == [] then 0 else (if users[0].isVerified then 1 else 0) + VerifiedCount(users[1..])
  }

  /** The number of users the grant goes to. */
  function EligibleCount(users: seq<User>, amount: int): (n: nat)
    ensures n <= |users|
  {
    if users == [] then 0 else (if Eligible(users[0], amount) then 1 else 0) + EligibleCount(users[1..], amount)
  }

  /** The ids of the users the grant goes to, in table order. */
  function EligibleIds(users: seq<User>, amount: int): (ids: seq<string>)
    ensures |ids| == EligibleCount(users, amount)
  {
    if users == [] then []
    else (if Eligible(users[0], amount) then [users[0].id] else []) + EligibleIds(users[1..], amount)
  }

  /** Counting distributes over concatenation. */
  lemma {:induction false} CountsAppend(a: seq<User>, b: seq<User>, amount: int)
    ensures VerifiedCount(a + b) == VerifiedCount(a) + VerifiedCount(b)
    ensures EligibleCount(a + b, amount) == EligibleCount(a, amount) + EligibleCount(b, amount)
  {
    if a == [] {
      assert a + b == b;
    } else {
      assert (a + b)[1..] == a[1..] + b;
      CountsAppend(a[1..], b, amount);
    }
  }

  /** The eligible ids of a prefix extended by one element. */
  lemma {:induction false} EligibleIdsAppend(a: seq<User>, b: seq<User>, amount: int)
    ensures EligibleIds(a + b, amount) == EligibleIds(a, amount) + EligibleIds(b, amount)
  {
    if a == [] {
      assert a + b == b;
    } else {
      assert (a + b)[1..] == a[1..] + b;
      EligibleIdsAppend(a[1..], b, amount);
    }
  }

  /** With no verified user, nobody is eligible. */
  lemma {:induction false} NoneVerified(users: seq<User>, amount: int)
    requires VerifiedCount(users) == 0
    ensures forall i :: 0 <= i < |users| ==> !users[i].isVerified
    ensures EligibleCount(users, amount) == 0 && EligibleIds(users, amount) == []
  {
    if users != [] {
      NoneVerified(users[1..], amount);
      forall i | 0 < i < |users| ensures !users[i].isVerified {
        assert users[i] == users[1..][i - 1];
      }
    }
  }

  const NoUsersMessage := "No verified users found for daily coins distribution"

  function CompletedMessage(updated: nat, total: nat): string {
    "Daily coins distribution completed. Updated " + Decimal(updated) + " out of " + Decimal(total) + " users"
  }

  /**
   `distributeDailyCoins`: the scheduled run. With no verified users nothing
   happens. Otherwise each verified user is visited in table order; an
   eligible one is credited and notified, and `updated` counts exactly
   those. `amount` is the configured daily amount.
   */
  method DistributeDailyCoins(users: seq<User>, amount: int) returns (users': seq<User>, updated: nat, notified: seq<string>)
    ensures |users'| == |users|
    ensures forall i :: 0 <= i < |users| ==> users'[i] == Granted(users[i], amount)
    ensures updated == EligibleCount(users, amount)
    ensures notified == EligibleIds(users, amount)
    ensures VerifiedCount(users) == 0 ==> users' == users && updated == 0 && notified == []
  {
    if VerifiedCount(users) == 0 {
      NoneVerified(users, amount);
      return users, 0, [];
    }
    users' := users;
    updated := 0;
    notified := [];
    var i := 0;
    while i < |users|
      invariant 0 <= i <= |users| && |users'| == |users|
      invariant forall k :: 0 <= k < i ==> users'[k] == Granted(users[k], amount)
      invariant forall k :: i <= k < |users| ==> users'[k] == users[k]
      invariant updated == EligibleCount(users[..i], amount)
      invariant notified == EligibleIds(users[..i], amount)
    {
      assert users[..i + 1] == users[..i] + [users[i]];
      CountsAppend(users[..i], [users[i]], amount);
      EligibleIdsAppend(users[..i], [users[i]], amount);
      if Eligible(users[i], amount) {
        notified := notified + [users[i].id];
        updated := updated + 1;
      }
      users' := users'[i := Granted(users[i], amount)];
      i := i + 1;
    }
    assert users[..i] == users;
  }

  datatype TriggerResult = TriggerResult(success: bool, message: string, updatedCount: nat)

  /**
   `triggerDailyCoinsDistribution`: the manual run. Balances change as in the
   scheduled run, but `updatedCount` counts every verified user visited,
   credited or not. `outage` stands for a failure of the user query: it
   turns into an unsuccessful result with count 0 and no change.
   */
  method TriggerDailyCoins(users: seq<User>, amount: int, outage: Option<string>)
    returns (users': seq<User>, r: TriggerResult)
    ensures outage.Some? ==>
      users' == users && r == TriggerResult(false, "Error during manual daily coins distribution: " + outage.value, 0)
    ensures outage.None? && VerifiedCount(users) == 0 ==> users' == users && r == TriggerResult(true, NoUsersMessage, 0)
    ensures outage.None? ==>
      && |users'| == |users|
      && (forall i :: 0 <= i < |users| ==> users'[i] == Granted(users[i], amount))
      && r.success && r.updatedCount == VerifiedCount(users)
    ensures outage.None? && VerifiedCount(users) > 0 ==>
      r.message == CompletedMessage(VerifiedCount(users), VerifiedCount(users))
  {
    if outage.Some? {
      return users, TriggerResult(false, "Error during manual daily coins distribution: " + outage.value, 0);
    }
    if VerifiedCount(users) == 0 {
      NoneVerified(users, amount);
      return users, TriggerResult(true, NoUsersMessage, 0);
    }
    users' := users;
    var updated := 0;
    var i := 0;
    while i < |users|
      invariant 0 <= i <= |users| && |users'| == |users|
      invariant forall k :: 0 <= k < i ==> users'[k] == Granted(users[k], amount)
      invariant forall k :: i <= k < |users| ==> users'[k] == users[k]
      invariant updated == VerifiedCount(users[..i])
    {
      assert users[..i + 1] == users[..i] + [users[i]];
      CountsAppend(users[..i], [users[i]], amount);
      if users[i].isVerified {
        if users[i].coins + amount <= Cap {
          users' := users'[i := users[i].(coins := users[i].coins + amount)];
        }
        updated := updated + 1;
      }
      i := i + 1;
    }
    assert users[..i] == users;
    var verified := VerifiedCount(users);
    r := TriggerResult(true, CompletedMessage(updated, verified), updated);
  }

  /** Eligible users are verified users, so the scheduled count never exceeds the manual one. */
  lemma {:induction false} EligibleAtMostVerified(users: seq<User>, amount: int)
    ensures EligibleCount(users, amount) <= VerifiedCount(users)
  {
    if users != [] {
      EligibleAtMostVerified(users[1..], amount);
    }
  }

  /**
   The two counts agree exactly when every verified user was credited: the
   manual run over-reports whenever some verified user is at the cap.
   */
  lemma {:induction false} CountsAgreeIffAllCredited(users: seq<User>, amount: int)
    ensures EligibleCount(users, amount) == VerifiedCount(users)
        <==> forall i :: 0 <= i < |users| && users[i].isVerified ==> users[i].coins + amount <= Cap
  {
    if users != [] {
      CountsAgreeIffAllCredited(users[1..], amount);
      EligibleAtMostVerified(users[1..], amount);
      if forall i :: 0 <= i < |users| && users[i].isVerified ==> users[i].coins + amount <= Cap {
        forall i | 0 <= i < |users[1..]| && users[1..][i].isVerified ensures users[1..][i].coins + amount <= Cap {
          assert users[1..][i] == users[i + 1];
        }
      } else {
        var i :| 0 <= i < |users| && users[i].isVerified && users[i].coins + amount > Cap;
        if i > 0 {
          assert users[1..][i - 1] == users[i];
        }
      }
    }
  }

  /** With a non-negative amount no balance goes down, and one within the cap stays within it. */
  lemma GrantKeepsCap(u: User, amount: int)
    requires amount >= 0
    ensures Granted(u, amount).coins >= u.coins
    ensures u.coins <= Cap ==> Granted(u, amount).coins <= Cap
  {
  }
}
