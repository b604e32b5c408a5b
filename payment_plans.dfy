/** Statistics over payment_plans (`getPaymentPlanStats`). */
module PaymentPlans {
  import opened Values
  import opened Tables

  /** `is_active` as stored: normally a boolean, but any JSON value can be there. */
  datatype PaymentPlan = PaymentPlan(id: string, is_active: FieldValue)

  datatype PlanStats = PlanStats(totalPlans: nat, activePlans: nat)

  /** `p.is_active === true`: strict equality with the boolean true. */
  predicate IsActivePlan(p: PaymentPlan) {
    p.is_active == Flag(true)
  }

  function GetPaymentPlanStats(data: Option<seq<PaymentPlan>>): (r: PlanStats)
    ensures r.totalPlans == |OrEmpty(data)|
    ensures r.activePlans == Count(OrEmpty(data), IsActivePlan) <= r.totalPlans
    ensures r.activePlans == r.totalPlans <==>
              forall i :: 0 <= i < |OrEmpty(data)| ==> OrEmpty(data)[i].is_active == Flag(true)
    ensures data.None? || data == Some([]) ==> r == PlanStats(0, 0)
  {
    var plans := OrEmpty(data);
    CountIsTotal(plans, IsActivePlan);
    PlanStats(|plans|, Count(plans, IsActivePlan))
  }

  /** A truthy value that is not the boolean true ('yes', 1) does not make a plan active. */
  lemma TruthyNonBooleanIsNotActive(plans: seq<PaymentPlan>)
    requires forall i :: 0 <= i < |plans| ==> !plans[i].is_active.Flag?
    ensures GetPaymentPlanStats(Some(plans)).activePlans == 0
  {
    CountIsZero(plans, IsActivePlan);
  }
}
