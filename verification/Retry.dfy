/** The bounded-retry policy: which responses may be retried and how long to
    wait before the next attempt. Durations are int64 nanoseconds. */
module Retry {
  import opened Common
  import opened Decimal

  const MAX_DELAY: int := 30 * SECOND
  const MAX_DOUBLINGS: int := 4

  predicate RetryableStatus(status: int) {
    status == 429 || status >= 500
  }

  /** The delta-seconds form. A value too large for int64 saturates. */
  function DeltaSeconds(value: string): Option<int> {
    match ParseInt(value)
    case Number(v) => Some(v)
    case OutOfRange(v) => Some(v)
    case Malformed => None
  }

  /** The delay a Retry-After value asks for. `untilDate` is what an HTTP-date
      still has to go, when the value is one. */
  function After(value: string, untilDate: string -> Option<int>): int {
    match DeltaSeconds(value)
    case Some(seconds) =>
      if seconds <= 0 then 0
      else if seconds >= MAX_INT64 / SECOND then MAX_INT64
      else Wrap64(seconds * SECOND)
    case None =>
      match untilDate(value)
      case Some(wait) => if wait > 0 then wait else 0
      case None => 0
  }

  /** The value of an int64 computation. */
  function Wrap64(x: int): int {
    (x + 0x8000_0000_0000_0000) % 0x1_0000_0000_0000_0000 - 0x8000_0000_0000_0000
  }

  lemma NoWrap(x: int)
    requires MIN_INT64 <= x <= MAX_INT64
    ensures Wrap64(x) == x
  {
  }

  ghost predicate Int64Dates(untilDate: string -> Option<int>) {
    forall v :: untilDate(v).Some? ==> MIN_INT64 <= untilDate(v).value <= MAX_INT64
  }

  /** No Retry-After value overflows: the delay is between 0 and the largest
      duration, and asks for exactly the seconds named when they fit. */
  lemma AfterNeverOverflows(value: string, untilDate: string -> Option<int>)
    requires Int64Dates(untilDate)
    ensures 0 <= After(value, untilDate) <= MAX_INT64
    ensures DeltaSeconds(value).Some? && 0 <= DeltaSeconds(value).value < MAX_INT64 / SECOND ==>
              After(value, untilDate) == DeltaSeconds(value).value * SECOND
    ensures DeltaSeconds(value).Some? && DeltaSeconds(value).value >= MAX_INT64 / SECOND ==>
              After(value, untilDate) > MAX_DELAY
  {
    var seconds := DeltaSeconds(value);
    if seconds.Some? && 0 < seconds.value < MAX_INT64 / SECOND {
      assert seconds.value * SECOND <= MAX_INT64;
      NoWrap(seconds.value * SECOND);
    }
  }

  /** Seconds as they are printed: exact while they fit, the largest duration
      beyond, and no delay when they are negative. */
  lemma SecondsMeaning(n: nat, untilDate: string -> Option<int>)
    ensures After(Print(n), untilDate) == if n < MAX_INT64 / SECOND then n * SECOND else MAX_INT64
    ensures After("-" + Print(n), untilDate) == 0
  {
    PrintValue(n);
    SignedDigits(Print(n), n);
    if n < MAX_INT64 / SECOND { NoWrap(n * SECOND); }
  }

  lemma SignedDigits(digits: string, n: nat)
    requires AllDigits(digits) && DigitsValue(digits) == n
    ensures ParseInt(digits) == if n > MAX_INT64 then OutOfRange(MAX_INT64) else Number(n)
    ensures ParseInt("+" + digits) == ParseInt(digits)
    ensures ParseInt("-" + digits) == if 0 - n < MIN_INT64 then OutOfRange(MIN_INT64) else Number(0 - n)
  {
    assert ("-" + digits)[1..] == digits && ("+" + digits)[1..] == digits;
    assert IsDigit(digits[0]);
  }

  /** Anything else is a date, whose remaining time is waited if any is left, or
      asks for nothing. */
  lemma DateMeaning(value: string, untilDate: string -> Option<int>)
    requires ParseInt(value) == Malformed
    ensures After(value, untilDate)
            == if untilDate(value).Some? && untilDate(value).value > 0 then untilDate(value).value else 0
  {
  }

  datatype DelayResult = Wait(duration: int) | TooLong(requested: int)

  function Min(a: int, b: int): int {
    if a < b then a else b
  }

  function Max(a: int, b: int): int {
    if a > b then a else b
  }

  function Pow2(n: nat): nat {
    if n == 0 then 1 else 2 * Pow2(n - 1)
  }

  /** How long to wait before the attempt after this one. */
  function Delay(base: int, attempt: int, serverDelay: int): DelayResult {
    if serverDelay > 0 then
      if serverDelay > MAX_DELAY then TooLong(serverDelay) else Wait(serverDelay)
    else
      Wait(Min(Wrap64(base * Pow2(Min(Max(attempt, 0), MAX_DOUBLINGS))), MAX_DELAY))
  }

  lemma BackoffFactor(attempt: int)
    ensures 1 <= Pow2(Min(Max(attempt, 0), MAX_DOUBLINGS)) <= 16
    ensures attempt >= MAX_DOUBLINGS ==> Pow2(Min(Max(attempt, 0), MAX_DOUBLINGS)) == 16
  {
    assert Pow2(0) == 1 && Pow2(1) == 2 && Pow2(2) == 4 && Pow2(3) == 8 && Pow2(4) == 16;
  }

  /** The wait chosen without a server delay is the base doubled per attempt, up
      to four times, and never beyond the ceiling. */
  lemma BackoffIsBounded(base: int, attempt: int)
    requires 0 <= base <= MAX_INT64 / 16
    ensures var factor := Pow2(Min(Max(attempt, 0), MAX_DOUBLINGS));
            && Delay(base, attempt, 0) == Wait(Min(base * factor, MAX_DELAY))
            && 0 <= Delay(base, attempt, 0).duration <= MAX_DELAY
  {
    var factor := Pow2(Min(Max(attempt, 0), MAX_DOUBLINGS));
    BackoffFactor(attempt);
    assert 0 <= base * factor <= base * 16 <= MAX_INT64;
    NoWrap(base * factor);
  }

  /** One, two, four, eight and then sixteen times the base. */
  lemma Doublings(base: int, attempt: int)
    requires 0 <= base <= MAX_INT64 / 16
    ensures var wait := Delay(base, attempt, 0);
            && (attempt <= 0 ==> wait == Wait(Min(base, MAX_DELAY)))
            && (attempt == 1 ==> wait == Wait(Min(2 * base, MAX_DELAY)))
            && (attempt == 2 ==> wait == Wait(Min(4 * base, MAX_DELAY)))
            && (attempt == 3 ==> wait == Wait(Min(8 * base, MAX_DELAY)))
            && (attempt >= 4 ==> wait == Wait(Min(16 * base, MAX_DELAY)))
  {
    BackoffIsBounded(base, attempt);
    assert Pow2(0) == 1 && Pow2(1) == 2 && Pow2(2) == 4 && Pow2(3) == 8 && Pow2(4) == 16;
  }

  /** Every wait is between 0 and the ceiling; a positive server delay is waited
      exactly or refused. */
  lemma DelayIsBounded(base: int, attempt: int, serverDelay: int)
    requires 0 <= base <= MAX_INT64 / 16
    ensures var d := Delay(base, attempt, serverDelay);
            && (d.TooLong? <==> serverDelay > 30 * 1_000_000_000)
            && (d.Wait? ==> 0 <= d.duration <= 30 * 1_000_000_000)
            && (d.Wait? && serverDelay > 0 ==> d.duration == serverDelay)
  {
    BackoffIsBounded(base, attempt);
    if serverDelay <= 0 {
      assert Delay(base, attempt, serverDelay) == Delay(base, attempt, 0);
    }
  }

  /** The bound on the base is exact: one more nanosecond and the last doubling
      wraps to a negative wait. */
  lemma LargerBaseOverflows(attempt: int)
    requires attempt >= MAX_DOUBLINGS
    ensures Delay(MAX_INT64 / 16 + 1, attempt, 0).duration == MIN_INT64
  {
    BackoffFactor(attempt);
  }
}
