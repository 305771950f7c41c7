// When a certificate is renewed and when the controller looks again
// (internal/controllers/kmpcertificate_controller.go:379-385, 416-425). Instants and
// durations are nanoseconds; instants are unbounded, durations are int64.
module Renewal {
  import opened Basics

  const NS_PER_SECOND: int := 1_000_000_000
  const RETRY_AFTER: int := 60 * NS_PER_SECOND
  const RENEWAL_FRACTION: int := 3

  // time.Time.Sub, which saturates.
  function Sub(t: int, u: int): int {
    if t - u > MAX_INT64 then MAX_INT64
    else if t - u < MIN_INT64 then MIN_INT64
    else t - u
  }

  // Division of int64 values, which truncates toward zero.
  function Quotient(a: int, b: int): int
    requires b > 0
  {
    if a >= 0 then a / b else -((-a) / b)
  }

  function RenewalTime(notBefore: int, notAfter: int, renewBefore: Option<int>): int {
    var before :=
      if renewBefore.Some? && renewBefore.value > 0 then renewBefore.value
      else Quotient(Sub(notAfter, notBefore), RENEWAL_FRACTION);
    notAfter - before
  }

  // How long to wait before the next check.
  function Until(at: Option<int>, now: int): int {
    if at.None? then RETRY_AFTER
    else
      var wait := Sub(at.value, now);
      if wait < NS_PER_SECOND then NS_PER_SECOND else wait
  }

  // Unless the spec says otherwise, renewal starts within the lifetime, however long, and
  // leaves a third of it; a saturated lifetime leaves more.
  lemma DefaultRenewalFallsWithinLifetime(notBefore: int, notAfter: int, renewBefore: Option<int>)
    requires notBefore < notAfter && (renewBefore.Some? ==> renewBefore.value <= 0)
    ensures var at := RenewalTime(notBefore, notAfter, renewBefore);
      && notBefore < at <= notAfter
      && (at < notAfter <==> notAfter - notBefore >= RENEWAL_FRACTION)
      && (notAfter - notBefore <= MAX_INT64 ==>
           RENEWAL_FRACTION * (notAfter - at) <= notAfter - notBefore < RENEWAL_FRACTION * (notAfter - at + 1))
  {
    var lifetime := Sub(notAfter, notBefore);
    assert lifetime == lifetime / 3 * 3 + lifetime % 3;
  }

  // A configured lead leaves a new certificate any time at all exactly when it is shorter
  // than the lifetime.
  lemma ConfiguredRenewalFallsWithinLifetime(notBefore: int, notAfter: int, lead: int)
    requires lead > 0
    ensures var at := RenewalTime(notBefore, notAfter, Some(lead));
      at < notAfter && (notBefore < at <==> lead < notAfter - notBefore)
  {}

  // The next look is no earlier than renewal, unless renewal is further off than a
  // duration can tell, and then no more than a second late.
  lemma WakesForRenewal(renewAt: int, now: int)
    requires now <= renewAt
    ensures var wake := now + Until(Some(renewAt), now);
      && (wake >= renewAt <==> renewAt - now <= MAX_INT64)
      && wake <= renewAt + NS_PER_SECOND
      && now < wake
  {}
}
