/** Statistics over patient_plan_subscriptions (`getSubscriptionStats`). */
module Subscriptions {
  import opened Values
  import opened Tables

  datatype Subscription = Subscription(id: string, status: Option<string>)

  datatype SubscriptionStats = SubscriptionStats(
    totalSubscriptions: nat,
    activeSubscriptions: nat,
    expiredSubscriptions: nat)

  /** A trialing subscription counts as active. */
  predicate IsActive(s: Subscription) {
    s.status == Some("active") || s.status == Some("trialing")
  }

  predicate IsExpired(s: Subscription) {
    s.status == Some("expired")
  }

  lemma ActiveExpiredDisjoint(subs: seq<Subscription>)
    ensures Count(subs, IsActive) + Count(subs, IsExpired) <= |subs|
  {
    var ps := [IsActive, IsExpired];
    Buckets(subs, ps);
    assert ps[..1] == [IsActive];
  }

  function GetSubscriptionStats(data: Option<seq<Subscription>>): (r: SubscriptionStats)
    ensures r.totalSubscriptions == |OrEmpty(data)|
    ensures r.activeSubscriptions == Count(OrEmpty(data), IsActive)
    ensures r.expiredSubscriptions == Count(OrEmpty(data), IsExpired)
    ensures r.activeSubscriptions + r.expiredSubscriptions <= r.totalSubscriptions
    ensures r.activeSubscriptions == 0 <==>
              forall i :: 0 <= i < |OrEmpty(data)| ==> !IsActive(OrEmpty(data)[i])
    ensures data.None? ==> r == SubscriptionStats(0, 0, 0)
  {
    var subs := OrEmpty(data);
    ActiveExpiredDisjoint(subs);
    CountIsZero(subs, IsActive);
    SubscriptionStats(|subs|, Count(subs, IsActive), Count(subs, IsExpired))
  }
}
