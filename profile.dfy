/** The profile page's subscription panel and progress list: days left in
    the subscription, its status, when the renewal alert is shown, and the
    display name of a game id. `now` is the clock reading in milliseconds. */
module Profile {
  import opened Common

  const MillisPerDay: int := 1000 * 60 * 60 * 24

  /** `Math.ceil(ms / MillisPerDay)` for an integer number of milliseconds. */
  function CeilDays(ms: int): (d: int)
    ensures (d - 1) * MillisPerDay < ms <= d * MillisPerDay
  {
    -((-ms) / MillisPerDay)
  }

  /** `daysRemaining`: 0 without an end date; otherwise the whole days
      until the end date, rounded up, and never negative. */
  function DaysRemaining(endDate: Option<int>, now: int): (d: int)
    ensures d >= 0
    ensures endDate.None? ==> d == 0
    ensures endDate.Some? && endDate.value <= now ==> d == 0
    ensures endDate.Some? && endDate.value > now ==>
              (d - 1) * MillisPerDay < endDate.value - now <= d * MillisPerDay
  {
    match endDate
    case None => 0
    case Some(end) =>
      var days := CeilDays(end - now);
      if days < 0 then 0 else days
  }

  /** Any time left counts as at least one day; a day or less left is
      exactly one. */
  lemma PartialDayCountsAsOne(endDate: int, now: int)
    requires now < endDate <= now + MillisPerDay
    ensures DaysRemaining(Some(endDate), now) == 1
  {
  }

  datatype Status = Active | Expired | NotSubscribed

  /** The label shown for each status. */
  function StatusLabel(s: Status): (text: string)
    ensures s == Active ==> text == "نشط"
    ensures s == Expired ==> text == "منتهي"
    ensures s == NotSubscribed ==> text == "غير مشترك"
  {
    match s
    case Active => "نشط"
    case Expired => "منتهي"
    case NotSubscribed => "غير مشترك"
  }

  /** `subscriptionStatus`: not subscribed whatever the dates say; a
      subscriber is active iff there is an end date with days remaining,
      and expired otherwise. */
  function SubscriptionStatus(isSubscribed: bool, endDate: Option<int>, now: int): (s: Status)
    ensures !isSubscribed ==> s == NotSubscribed
    ensures isSubscribed ==> (s == Active <==> endDate.Some? && DaysRemaining(endDate, now) > 0)
    ensures isSubscribed ==> s != NotSubscribed
  {
    if !isSubscribed then NotSubscribed
    else if endDate.Some? && DaysRemaining(endDate, now) > 0 then Active
    else Expired
  }

  /** In terms of the clock: a subscription is active exactly while its end
      date lies in the future. */
  lemma ActiveUntilEndDate(isSubscribed: bool, endDate: Option<int>, now: int)
    ensures SubscriptionStatus(isSubscribed, endDate, now) == Active <==>
              isSubscribed && endDate.Some? && now < endDate.value
  {
  }

  /** The renewal alert: shown to anyone not subscribed, and to a
      subscriber with an end date at most 7 days away. */
  function ShowRenewalAlert(isSubscribed: bool, endDate: Option<int>, now: int): (b: bool)
    ensures b <==> !isSubscribed || (endDate.Some? && DaysRemaining(endDate, now) <= 7)
  {
    !isSubscribed || (endDate.Some? && DaysRemaining(endDate, now) <= 7)
  }

  /** In terms of the clock: a subscriber sees the alert exactly when the
      end date is at most seven days of milliseconds away (or past). */
  lemma AlertWithinAWeek(endDate: int, now: int)
    ensures ShowRenewalAlert(true, Some(endDate), now) <==> endDate - now <= 7 * MillisPerDay
  {
    var d := DaysRemaining(Some(endDate), now);
    if endDate > now {
      assert (d - 1) * MillisPerDay < endDate - now <= d * MillisPerDay;
      if d <= 7 {
        assert d * MillisPerDay <= 7 * MillisPerDay;
      } else {
        assert (d - 1) * MillisPerDay >= 7 * MillisPerDay;
      }
    }
  }

  /** An expired subscriber always sees the alert, except one with no end
      date at all: that one is shown as expired with no alert. */
  lemma ExpiredAlerts(endDate: Option<int>, now: int)
    requires SubscriptionStatus(true, endDate, now) == Expired
    ensures ShowRenewalAlert(true, endDate, now) <==> endDate.Some?
  {
  }

  /** The display name of a progress row's game. */
  function GameName(gameId: int): (name: string)
    ensures gameId == 1 ==> name == "تعلم الحروف"
    ensures gameId == 2 ==> name == "لعبة الكلمات"
    ensures gameId == 3 ==> name == "قصص تفاعلية"
    ensures gameId !in {1, 2, 3} ==> name == "لعبة رقم " + DecimalString(gameId)
  {
    if gameId == 1 then "تعلم الحروف"
    else if gameId == 2 then "لعبة الكلمات"
    else if gameId == 3 then "قصص تفاعلية"
    else "لعبة رقم " + DecimalString(gameId)
  }

  /** Different games get different names. */
  lemma GameNamesDistinct(a: int, b: int)
    requires a != b
    ensures GameName(a) != GameName(b)
  {
    var generic := "لعبة رقم ";
    if a !in {1, 2, 3} && b !in {1, 2, 3} {
      if GameName(a) == GameName(b) {
        assert GameName(a)[|generic|..] == DecimalString(a);
        assert GameName(b)[|generic|..] == DecimalString(b);
        DecimalStringInjective(a, b);
      }
    } else if a !in {1, 2, 3} {
      assert |GameName(a)| >= 10;
      assert GameName(a)[5] == 'ر';
    } else if b !in {1, 2, 3} {
      assert |GameName(b)| >= 10;
      assert GameName(b)[5] == 'ر';
    }
  }
}
