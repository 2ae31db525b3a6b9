/** The subscription plan card: the savings badge, computed against a
    monthly price of 30, and the subscribe button, which only a signed-in
    visitor can use. */
module SubscriptionPlanCard {
  import opened Common
  import opened Schema
  import Storage

  const MonthlyPrice: int := 30

  /** `calculateSavings`: none for a one-month plan; otherwise what the
      same number of monthly payments would cost more, when that is
      positive. */
  function CalculateSavings(duration: int, price: int): (r: Option<int>)
    ensures duration == 1 ==> r.None?
    ensures duration != 1 ==> (r.Some? <==> price < MonthlyPrice * duration)
    ensures r.Some? ==> r.value > 0 && r.value + price == MonthlyPrice * duration
  {
    if duration == 1 then None
    else
      var savings := MonthlyPrice * duration - price;
      if savings > 0 then Some(savings) else None
  }

  /** A cheaper plan of the same length saves more. */
  lemma SavingsGrowAsPriceFalls(duration: int, p1: int, p2: int)
    requires duration != 1 && p2 <= p1 && CalculateSavings(duration, p1).Some?
    ensures CalculateSavings(duration, p2).Some?
    ensures CalculateSavings(duration, p2).value - CalculateSavings(duration, p1).value == p1 - p2
  {
  }

  /** The seeded plans: the monthly plan shows no badge, the six-month plan
      saves 30 and the yearly plan 60. */
  lemma SeededPlanSavings()
    ensures CalculateSavings(Storage.SeedPlans[0].duration, Storage.SeedPlans[0].price) == None
    ensures CalculateSavings(Storage.SeedPlans[1].duration, Storage.SeedPlans[1].price) == Some(30)
    ensures CalculateSavings(Storage.SeedPlans[2].duration, Storage.SeedPlans[2].price) == Some(60)
  {
  }

  /** The monthly price the badge compares against is the seeded monthly
      plan's price. */
  lemma MonthlyPriceMatchesSeed()
    ensures Storage.SeedPlans[0].duration == 1 && Storage.SeedPlans[0].price == MonthlyPrice
  {
  }

  /** What pressing "subscribe" does. */
  datatype SubscribeAction =
    | LoginRequiredToast                // "يجب تسجيل الدخول", and nothing is sent
    | SendSubscribeRequest(planId: int) // POST /api/subscribe for the plan

  /** `handleSubscribe`. */
  function HandleSubscribe(isLoggedIn: bool, plan: SubscriptionPlan): (a: SubscribeAction)
    ensures !isLoggedIn <==> a == LoginRequiredToast
    ensures isLoggedIn ==> a == SendSubscribeRequest(plan.id)
  {
    if !isLoggedIn then LoginRequiredToast else SendSubscribeRequest(plan.id)
  }
}
