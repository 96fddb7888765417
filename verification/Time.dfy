/** Instants, Go's 64-bit durations and the expiry columns derived from them. */
module Time {
  import opened Prelude

  const MIN_INT64: int := -0x8000_0000_0000_0000
  const MAX_INT64: int := 0x7FFF_FFFF_FFFF_FFFF

  type Int64 = x: int | MIN_INT64 <= x <= MAX_INT64

  /** Nanoseconds since Go's zero time, so the zero `time.Time` is 0. */
  type Instant = int

  const SECOND: int := 1_000_000_000

  /** The largest lifetime, in seconds, whose nanosecond count fits an int64. */
  const MAX_EXACT_LIFETIME: int := 9223372036

  /** Two's-complement truncation to 64 bits. */
  function Wrap(x: int): (r: Int64)
    ensures (x - r) % 0x1_0000_0000_0000_0000 == 0
    ensures MIN_INT64 <= x <= MAX_INT64 ==> r == x
  {
    (x - MIN_INT64) % 0x1_0000_0000_0000_0000 + MIN_INT64
  }

  /** `CreationTime.Add(time.Duration(Lifetime) * time.Second)`: the product is an
      int64 and wraps. */
  function LifetimeExpiry(creation: Instant, lifetime: Int64): Instant
  {
    creation + Wrap(lifetime * SECOND)
  }

  /** A zero expiry means "never" and is stored as NULL. */
  function ExpiresAtPtr(t: Instant): Option<Instant>
  {
    if t == 0 then None else Some(t)
  }

  /** A timestamptz column keeps microseconds. */
  function Micros(t: Instant): int
  {
    t / 1000
  }

  function MicrosOf(t: Option<Instant>): Option<int>
  {
    match t
    case None => None
    case Some(v) => Some(Micros(v))
  }

  ghost predicate Monotone(round: int -> int)
  {
    forall a, b :: a <= b ==> round(a) <= round(b)
  }

  lemma MicrosIsMonotone()
    ensures Monotone(Micros)
  {
    forall a: int, b: int | a <= b
      ensures Micros(a) <= Micros(b)
    {
      assert 1000 * (a / 1000) <= a < 1000 * (a / 1000) + 1000;
      assert 1000 * (b / 1000) <= b < 1000 * (b / 1000) + 1000;
    }
  }

  /** Instants a microsecond apart are told apart; order is never turned round. */
  lemma MicrosResolution(a: Instant, b: Instant)
    ensures a <= b ==> Micros(a) <= Micros(b)
    ensures a + 1000 <= b ==> Micros(a) < Micros(b)
  {
    assert 1000 * (a / 1000) <= a < 1000 * (a / 1000) + 1000;
    assert 1000 * (b / 1000) <= b < 1000 * (b / 1000) + 1000;
  }

  /** The stored expiry is `creation + lifetime` seconds exactly for the lifetimes a
      caller can check against `MAX_EXACT_LIFETIME`, and for no others. */
  lemma LifetimeExpiryExact(creation: Instant, lifetime: Int64)
    ensures LifetimeExpiry(creation, lifetime) == creation + lifetime * SECOND
            <==> -MAX_EXACT_LIFETIME <= lifetime <= MAX_EXACT_LIFETIME
  {
    var product := lifetime * SECOND;
    if -MAX_EXACT_LIFETIME <= lifetime <= MAX_EXACT_LIFETIME {
      assert MIN_INT64 <= product <= MAX_INT64;
    } else {
      assert product < MIN_INT64 || MAX_INT64 < product;
    }
  }

  /** Within that range a longer lifetime expires later. */
  lemma LifetimeExpiryMonotone(creation: Instant, shorter: Int64, longer: Int64)
    requires -MAX_EXACT_LIFETIME <= shorter < longer <= MAX_EXACT_LIFETIME
    ensures LifetimeExpiry(creation, shorter) < LifetimeExpiry(creation, longer)
  {
    LifetimeExpiryExact(creation, shorter);
    LifetimeExpiryExact(creation, longer);
  }

  /** One second more and the product wraps: the record is stored as having expired
      before it was created. */
  lemma LifetimeExpiryWraps(creation: Instant)
    ensures LifetimeExpiry(creation, MAX_EXACT_LIFETIME + 1) < creation
  {
    assert (MAX_EXACT_LIFETIME + 1) * SECOND == 9223372037000000000;
    assert Wrap(9223372037000000000) == 9223372037000000000 - 0x1_0000_0000_0000_0000;
  }
}
