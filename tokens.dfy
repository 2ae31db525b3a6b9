/** Expiry times for reset-password tokens. The clock reading is the
    parameter `now` (milliseconds since the epoch); `hours` is a whole
    number of hours. */
module Tokens {
  import opened Schema
  import opened Storage

  const MillisPerHour: int := 60 * 60 * 1000

  /** `calculateExpiryTime(hours = 1)`: the instant `hours` hours after `now`. */
  function CalculateExpiryTime(now: int, hours: int := 1): (t: int)
    ensures t - now == hours * 3600000
  {
    now + hours * MillisPerHour
  }

  /** Called without an argument, the window is exactly one hour. */
  lemma DefaultIsOneHour(now: int)
    ensures CalculateExpiryTime(now) == now + 3600000
  {
  }

  /** A positive number of hours puts the expiry in the future; zero hours
      gives `now` itself and negative hours the past. */
  lemma ExpiryInFuture(now: int, hours: int)
    ensures CalculateExpiryTime(now, hours) > now <==> hours > 0
  {
  }

  /** More hours never give an earlier expiry. */
  lemma ExpiryMonotone(now: int, h1: int, h2: int)
    requires h1 <= h2
    ensures CalculateExpiryTime(now, h1) <= CalculateExpiryTime(now, h2)
  {
  }

  /** A token stored with `calculateExpiryTime(hours)` as its expiry
      resolves at every instant from `now` up to, but not including, the
      expiry, and at no later instant. */
  lemma StoredTokenWindow(u: User, token: string, now: int, hours: int, later: int)
    requires hours > 0 && now <= later
    ensures ResetTokenLive(WithResetToken(u, token, CalculateExpiryTime(now, hours)), token, later)
        <==> later - now < hours * 3600000
  {
    ResetTokenWindow(u, token, CalculateExpiryTime(now, hours), later);
  }
}
