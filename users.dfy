/** User statistics over the admin_users table (`getUserStats`). */
module Users {
  import opened Values
  import opened Tables
  import opened Auth

  datatype UserStats = UserStats(totalUsers: nat, activeUsers: nat, inactiveUsers: nat)

  predicate IsActiveUser(u: AdminUser) {
    u.status == Some("active")
  }

  /** Every other status, a missing one included (`u.status !== 'active'`). */
  predicate IsInactiveUser(u: AdminUser) {
    u.status != Some("active")
  }

  /** Every user is in exactly one of the two buckets. */
  lemma ActiveInactivePartition(rows: seq<AdminUser>)
    ensures Count(rows, IsActiveUser) + Count(rows, IsInactiveUser) == |rows|
  {
    var buckets := [IsActiveUser, IsInactiveUser];
    assert Covered(rows, buckets) by {
      forall i | 0 <= i < |rows| ensures InSomeBucket(rows[i], buckets) {
        if IsActiveUser(rows[i]) { assert buckets[0](rows[i]); } else { assert buckets[1](rows[i]); }
      }
    }
    Buckets(rows, buckets);
    assert buckets[..1] == [IsActiveUser];
  }

  /** `getUserStats`; a null `data` counts as no rows (`data?.length || 0`). */
  function GetUserStats(data: Option<seq<AdminUser>>): (r: UserStats)
    ensures r.totalUsers == |OrEmpty(data)|
    ensures r.activeUsers == Count(OrEmpty(data), IsActiveUser)
    ensures r.inactiveUsers == Count(OrEmpty(data), IsInactiveUser)
    ensures r.activeUsers + r.inactiveUsers == r.totalUsers
    ensures r.activeUsers == r.totalUsers <==>
              forall i :: 0 <= i < |OrEmpty(data)| ==> OrEmpty(data)[i].status == Some("active")
    ensures r.activeUsers == 0 <==>
              forall i :: 0 <= i < |OrEmpty(data)| ==> OrEmpty(data)[i].status != Some("active")
  {
    var rows := OrEmpty(data);
    ActiveInactivePartition(rows);
    CountIsTotal(rows, IsActiveUser);
    CountIsZero(rows, IsActiveUser);
    UserStats(|rows|, Count(rows, IsActiveUser), Count(rows, IsInactiveUser))
  }
}
