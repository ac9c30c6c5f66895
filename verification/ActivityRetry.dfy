/**
 The activity retry policy: capped exponential backoff with an overflow fallback. Durations are
 seconds as reals; floating point is modelled up to rounding, so that overflow to infinity, and the
 not-a-number it can turn into, are still there.
 */
module ActivityRetry {
  import opened Common

  type Seconds = real

  datatype RetryPolicy = RetryPolicy(
    initialInterval: Option<Seconds>,
    backoffCoefficient: real,
    maximumInterval: Option<Seconds>,
    maximumAttempts: int,
    nonRetryableErrorTypes: seq<string>)

  datatype ApplicationFailure = ApplicationFailure(
    errorType: string,
    nonRetryable: bool,
    nextRetryDelay: Option<Seconds>)

  // ----- Numbers -----

  /**
   Where the finite numbers of a floating-point format end: for doubles, at 2 to the 1024. All that is
   used of it is that it is at least 2 to the 94, beyond any `Duration` counted in nanoseconds.
   */
  type Overflow = x: real | x >= TWO_94 witness TWO_94

  const TWO_94: real := 19807040628566084398385987584.0

  /** One more than the largest number of whole seconds a `Duration` holds. */
  const DURATION_LIMIT: real := 18446744073709551616.0

  const NANOSECOND: real := 0.000000001

  datatype F64 = Finite(v: real) | Infinite | NotANumber

  function ToF64(x: real, top: Overflow): F64 {
    if 0.0 - top < x < top then Finite(x) else Infinite
  }

  function Times(x: F64, y: real, top: Overflow): F64 {
    match x
    case Finite(v) => ToF64(v * y, top)
    case Infinite => if y == 0.0 then NotANumber else Infinite
    case NotANumber => NotANumber
  }

  function Power(c: real, n: nat): real {
    if n == 0 then 1.0 else c * Power(c, n - 1)
  }

  /** The last attempt number, of those from 1 on, that the 32-bit cast leaves its own exponent. */
  const LAST_ATTEMPT := 0x8000_0000

  /** `attempt_number as i32 - 1`, with the wrap-around of a 32-bit integer. */
  function Exponent(attempt: nat): (k: int)
    ensures 1 <= attempt <= LAST_ATTEMPT ==> k == attempt - 1
    ensures -0x8000_0000 <= k < 0x8000_0000 && (k - (attempt - 1)) % 0x1_0000_0000 == 0
  {
    var m := (attempt - 1) % 0x1_0000_0000;
    if m < 0x8000_0000 then m else m - 0x1_0000_0000
  }

  /** `powi`, for a base that is not 0. */
  function Powi(c: real, k: int): (r: real)
    requires c != 0.0
    ensures k < 0 ==> r * Power(c, -k) == 1.0
  {
    if k >= 0 then Power(c, k) else PowerNonZero(c, -k); 1.0 / Power(c, -k)
  }

  lemma {:induction false} PowerNonZero(c: real, n: nat)
    requires c != 0.0
    ensures Power(c, n) != 0.0
  {
    if n > 0 { PowerNonZero(c, n - 1); }
  }

  // ----- The code -----

  /** A protobuf duration converts unless it is negative. */
  function ToDuration(d: Option<Seconds>): Option<Seconds> {
    if d.Some? && d.value >= 0.0 then d else None
  }

  function TryFromSecs(x: F64): Option<Seconds> {
    if x.Finite? && 0.0 <= x.v < DURATION_LIMIT then Some(x.v) else None
  }

  function Min(a: real, b: real): real {
    if a <= b then a else b
  }

  function Initial(p: RetryPolicy): Seconds {
    var d := ToDuration(p.initialInterval);
    if d.Some? then d.value else 1.0
  }

  /** `saturating_mul` stops just below the limit of a `Duration`. */
  function Maximum(p: RetryPolicy): Seconds {
    var d := ToDuration(p.maximumInterval);
    if d.Some? then d.value else Min(100.0 * Initial(p), DURATION_LIMIT - NANOSECOND)
  }

  function Coefficient(p: RetryPolicy): (c: real)
    ensures c != 0.0
  {
    if p.backoffCoefficient != 0.0 then p.backoffCoefficient else 2.0
  }

  /** The interval times the power, or the maximum where the product does not fit a `Duration`; then the cap. */
  function Multiplied(power: real, interval: Seconds, max: Seconds, top: Overflow): Seconds {
    var tried := TryFromSecs(Times(ToF64(power, top), interval, top));
    Min(if tried.Some? then tried.value else max, max)
  }

  /** The computed delay, with nothing stopping the retry. */
  function Backoff(p: RetryPolicy, attempt: nat, top: Overflow): Seconds {
    if attempt == 1 then Initial(p)
    else Multiplied(Powi(Coefficient(p), Exponent(attempt)), Initial(p), Maximum(p), top)
  }

  function ErrorType(failure: Option<ApplicationFailure>): string {
    if failure.Some? then failure.value.errorType else ""
  }

  /** `should_retry`; `lower` is the Unicode lower-casing of the standard library. */
  function ShouldRetry(
      p: RetryPolicy, attempt: nat, failure: Option<ApplicationFailure>, lower: string -> string,
      top: Overflow): Option<Seconds>
  {
    if failure.Some? && failure.value.nonRetryable then None
    else if p.maximumAttempts > 0 && attempt >= p.maximumAttempts then None
    else if exists i :: 0 <= i < |p.nonRetryableErrorTypes|
                        && lower(ErrorType(failure)) == lower(p.nonRetryableErrorTypes[i]) then None
    else if failure.Some? && failure.value.nextRetryDelay.Some? then ToDuration(failure.value.nextRetryDelay)
    else Some(Backoff(p, attempt, top))
  }

  // ----- When there is no retry -----

  /** A retry is refused exactly for a marked failure, spent attempts, a listed type or an unusable explicit delay. */
  lemma RefusedExactly(
      p: RetryPolicy, attempt: nat, failure: Option<ApplicationFailure>, lower: string -> string, top: Overflow)
    ensures ShouldRetry(p, attempt, failure, lower, top).None? <==>
            || (failure.Some? && failure.value.nonRetryable)
            || 0 < p.maximumAttempts <= attempt
            || (exists t :: t in p.nonRetryableErrorTypes
                            && lower(if failure.Some? then failure.value.errorType else "") == lower(t))
            || (failure.Some? && failure.value.nextRetryDelay.Some? && failure.value.nextRetryDelay.value < 0.0)
  {
    var types := p.nonRetryableErrorTypes;
    if t :| t in types && lower(ErrorType(failure)) == lower(t) {
      var i :| 0 <= i < |types| && types[i] == t;
      assert lower(ErrorType(failure)) == lower(types[i]);
    } else {
      assert forall i :: 0 <= i < |types| ==> types[i] in types;
    }
  }

  /** A delay that the failure itself asks for is what the retry waits, if nothing refuses it. */
  lemma ExplicitDelayIsUsed(
      p: RetryPolicy, attempt: nat, failure: ApplicationFailure, lower: string -> string, d: Seconds, top: Overflow)
    requires failure.nextRetryDelay == Some(d) && 0.0 <= d && !failure.nonRetryable
    requires p.maximumAttempts <= 0 || attempt < p.maximumAttempts
    requires forall t :: t in p.nonRetryableErrorTypes ==> lower(failure.errorType) != lower(t)
    ensures ShouldRetry(p, attempt, Some(failure), lower, top) == Some(d)
  {
  }

  // ----- The capped backoff law -----

  function Multiply(c: real): Seconds -> Seconds {
    x => c * x
  }

  /** Rounds of "grow, then cap": the textbook recurrence, for any growth. */
  function Capped(grow: Seconds -> Seconds, d: Seconds, max: Seconds, n: nat): Seconds {
    if n == 0 then d else Min(grow(Capped(grow, d, max, n - 1)), max)
  }

  /** The same rounds without a cap. */
  function Grown(grow: Seconds -> Seconds, d: Seconds, n: nat): Seconds {
    if n == 0 then d else grow(Grown(grow, d, n - 1))
  }

  /** The two intervals fit a `Duration`, which counts whole nanoseconds. */
  predicate Representable(p: RetryPolicy) {
    && (Initial(p) == 0.0 || NANOSECOND <= Initial(p) < DURATION_LIMIT)
    && Maximum(p) < DURATION_LIMIT
  }

  // Multiplication facts, kept away from the definitions above.

  lemma Scale(a: real, b: real, x: real)
    requires a <= b && 0.0 <= x
    ensures a * x <= b * x
  {
    assert 0.0 <= (b - a) * x;
  }

  lemma Associate(a: real, b: real, c: real)
    ensures (a * b) * c == a * (b * c)
  {
  }

  lemma PositiveProduct(a: real, b: real)
    requires 0.0 < a && 0.0 < b
    ensures 0.0 < a * b
  {
  }

  lemma SmallProduct(x: real, d: real)
    requires 0.0 < x < 1.0 && 0.0 < d
    ensures 0.0 < x * d < d
  {
    Scale(x, 1.0, d);
    PositiveProduct(x, d);
    PositiveProduct(1.0 - x, d);
    assert (1.0 - x) * d == d - x * d;
  }

  lemma {:induction false} PowerPositive(c: real, n: nat)
    requires 0.0 < c
    ensures 0.0 < Power(c, n)
  {
    if n > 0 {
      PowerPositive(c, n - 1);
      PositiveProduct(c, Power(c, n - 1));
    }
  }

  lemma {:induction false} PowerBelowOne(c: real, n: nat)
    requires 0.0 < c < 1.0 && 0 < n
    ensures Power(c, n) < 1.0
  {
    if n > 1 {
      PowerBelowOne(c, n - 1);
      PowerPositive(c, n - 1);
      SmallProduct(c, Power(c, n - 1));
    }
  }

  lemma {:induction false} PowerAtLeastOne(c: real, n: nat)
    requires 1.0 <= c
    ensures 1.0 <= Power(c, n)
  {
    if n > 0 {
      PowerAtLeastOne(c, n - 1);
      Scale(1.0, c, Power(c, n - 1));
    }
  }

  lemma {:induction false} GrownIsProduct(d: Seconds, c: real, n: nat)
    ensures Grown(Multiply(c), d, n) == Power(c, n) * d
  {
    if n > 0 {
      GrownIsProduct(d, c, n - 1);
      Associate(c, Power(c, n - 1), d);
    }
  }

  lemma Shrink(c: real, x: real)
    requires 0.0 < c < 1.0 && 0.0 <= x
    ensures 0.0 <= c * x <= x
  {
    Scale(0.0, c, x);
    Scale(c, 1.0, x);
  }

  // Rounds of any growth.

  ghost predicate Enlarges(grow: Seconds -> Seconds) {
    forall x :: 0.0 <= x ==> x <= grow(x)
  }

  ghost predicate Reduces(grow: Seconds -> Seconds) {
    forall x :: 0.0 <= x ==> 0.0 <= grow(x) <= x
  }

  lemma MultiplyEnlarges(c: real)
    requires 1.0 <= c
    ensures Enlarges(Multiply(c))
  {
    forall x | 0.0 <= x ensures x <= Multiply(c)(x) { Scale(1.0, c, x); }
  }

  lemma MultiplyAt(c: real, x: Seconds, y: Seconds)
    requires 0.0 < c < 1.0 && 0.0 <= x && y == Multiply(c)(x)
    ensures 0.0 <= y <= x
  {
    assert y == c * x;
    Shrink(c, x);
  }

  lemma MultiplyReduces(c: real)
    requires 0.0 < c < 1.0
    ensures Reduces(Multiply(c))
  {
    forall x | 0.0 <= x ensures 0.0 <= Multiply(c)(x) <= x { MultiplyAt(c, x, Multiply(c)(x)); }
  }

  lemma {:induction false} GrownIsLarger(grow: Seconds -> Seconds, d: Seconds, n: nat)
    requires Enlarges(grow) && 0.0 <= d
    ensures d <= Grown(grow, d, n)
  {
    if n > 0 { GrownIsLarger(grow, d, n - 1); }
  }

  /** The first round is the only one that may start above the cap. */
  lemma {:induction false} AfterFirstRound(grow: Seconds -> Seconds, d: Seconds, max: Seconds, n: nat)
    ensures Capped(grow, d, max, n + 1) == Capped(grow, Min(grow(d), max), max, n)
    ensures Grown(grow, d, n + 1) == Grown(grow, grow(d), n)
  {
    if n > 0 { AfterFirstRound(grow, d, max, n - 1); }
  }

  /** Where rounds only enlarge, capping each of them is capping once at the end. */
  lemma {:induction false} CappedIsClosed(grow: Seconds -> Seconds, d: Seconds, max: Seconds, n: nat)
    requires Enlarges(grow) && 0.0 <= d && 0.0 <= max && 0 < n
    ensures Capped(grow, d, max, n) == Min(Grown(grow, d, n), max)
  {
    if n > 1 {
      CappedIsClosed(grow, d, max, n - 1);
      GrownIsLarger(grow, d, n - 1);
    }
  }

  /** Where rounds only reduce, nothing is capped once it is under the cap. */
  lemma {:induction false} CappedIsGrown(grow: Seconds -> Seconds, d: Seconds, max: Seconds, n: nat)
    requires Reduces(grow) && 0.0 <= d <= max
    ensures Capped(grow, d, max, n) == Grown(grow, d, n) && 0.0 <= Grown(grow, d, n) <= d
  {
    if n > 0 { CappedIsGrown(grow, d, max, n - 1); }
  }

  /** The only case in which the fallback is wrong: zero times a power that overflowed. */
  predicate ZeroTimesInfinity(p: RetryPolicy, attempt: nat, top: Overflow) {
    Initial(p) == 0.0 && attempt > 1 && Powi(Coefficient(p), Exponent(attempt)) >= top
  }

  lemma HugePower(x: real, d: Seconds, top: Overflow)
    requires x >= top && NANOSECOND <= d
    ensures x * d >= DURATION_LIMIT
  {
    Scale(top, x, d);
    Scale(NANOSECOND, d, top);
  }

  /** What the conversion makes of a power `x`, an interval `d` and their product `y`. */
  lemma TriedOrMaximum(x: real, d: Seconds, y: real, max: Seconds, top: Overflow)
    requires 0.0 < x && (d == 0.0 || NANOSECOND <= d) && 0.0 <= max < DURATION_LIMIT && y == x * d
    ensures Multiplied(x, d, max, top) ==
            if d == 0.0 && x >= top then max else Min(y, max)
  {
    Scale(0.0, x, d);
    if x >= top && d != 0.0 { HugePower(x, d, top); }
  }

  /** The overflow fallback agrees with exact arithmetic except on zero times infinity. */
  lemma FallbackIsExact(p: RetryPolicy, attempt: nat, top: Overflow)
    requires Representable(p) && 0.0 < Coefficient(p) && attempt != 1 && 0 <= Exponent(attempt)
    ensures var exact := Min(Grown(Multiply(Coefficient(p)), Initial(p), Exponent(attempt)), Maximum(p));
            Backoff(p, attempt, top) == if ZeroTimesInfinity(p, attempt, top) then Maximum(p) else exact
  {
    var c, d, n := Coefficient(p), Initial(p), Exponent(attempt);
    PowerPositive(c, n);
    GrownIsProduct(d, c, n);
    TriedOrMaximum(Power(c, n), d, Grown(Multiply(c), d, n), Maximum(p), top);
  }

  /** A shrinking policy whose second delay is capped: the code caps the product, not each round. */
  predicate CapCutsShrinking(p: RetryPolicy, attempt: nat) {
    attempt > 2 && Coefficient(p) < 1.0 && Multiply(Coefficient(p))(Initial(p)) > Maximum(p)
  }

  lemma GrowingLaw(p: RetryPolicy, attempt: nat, top: Overflow)
    requires Representable(p) && 1.0 <= Coefficient(p) && 1 < attempt <= LAST_ATTEMPT
    ensures Backoff(p, attempt, top) == Capped(Multiply(Coefficient(p)), Initial(p), Maximum(p), attempt - 1)
            <==> !ZeroTimesInfinity(p, attempt, top) || Maximum(p) == 0.0
  {
    FallbackIsExact(p, attempt, top);
    MultiplyEnlarges(Coefficient(p));
    CappedIsClosed(Multiply(Coefficient(p)), Initial(p), Maximum(p), attempt - 1);
    if Initial(p) == 0.0 { GrownIsProduct(0.0, Coefficient(p), attempt - 1); }
  }

  /** A cap shrunk by `q` cuts deeper than the cap itself. */
  lemma TwoCaps(q: real, e: real, max: real, grown: real, cap: real)
    requires 0.0 < q < 1.0 && 0.0 <= max < e && grown == q * e && cap == q * max
    ensures cap == Min(grown, max) <==> max == 0.0
  {
    PositiveProduct(q, e - max);
    assert q * (e - max) == grown - cap;
    if max > 0.0 { SmallProduct(q, max); }
  }

  lemma DeeperCut(e: Seconds, c: real, max: Seconds, n: nat)
    requires 0.0 <= max < e && 0.0 < c < 1.0 && 0 < n
    ensures Grown(Multiply(c), max, n) == Min(Grown(Multiply(c), e, n), max) <==> max == 0.0
  {
    PowerPositive(c, n);
    PowerBelowOne(c, n);
    GrownIsProduct(e, c, n);
    GrownIsProduct(max, c, n);
    TwoCaps(Power(c, n), e, max, Grown(Multiply(c), e, n), Grown(Multiply(c), max, n));
  }

  /** The recurrence against one cap at the end, for rounds that reduce. */
  lemma ShrinkingCaps(grow: Seconds -> Seconds, d: Seconds, max: Seconds, n: nat)
    requires Reduces(grow) && 0.0 <= d && 0.0 <= max
    ensures grow(d) <= max ==> Capped(grow, d, max, n + 1) == Min(Grown(grow, d, n + 1), max)
    ensures grow(d) > max ==> Capped(grow, d, max, n + 1) == Grown(grow, max, n)
    ensures Grown(grow, d, n + 1) == Grown(grow, grow(d), n)
  {
    AfterFirstRound(grow, d, max, n);
    CappedIsGrown(grow, Min(grow(d), max), max, n);
  }

  lemma CapsAgree(d: Seconds, c: real, max: Seconds, n: nat, e: Seconds)
    requires 0.0 <= d && 0.0 <= max && 0.0 < c < 1.0 && e == Multiply(c)(d)
    ensures Capped(Multiply(c), d, max, n + 1) == Min(Grown(Multiply(c), d, n + 1), max)
            <==> n == 0 || e <= max || max == 0.0
  {
    MultiplyReduces(c);
    ShrinkingCaps(Multiply(c), d, max, n);
    if e > max && n > 0 { DeeperCut(e, c, max, n); }
  }

  lemma NoOverflowBelowOne(p: RetryPolicy, attempt: nat, top: Overflow)
    requires 0.0 < Coefficient(p) < 1.0 && 1 < attempt <= LAST_ATTEMPT
    ensures !ZeroTimesInfinity(p, attempt, top)
  {
    PowerBelowOne(Coefficient(p), attempt - 1);
  }

  lemma ShrinkingLaw(p: RetryPolicy, attempt: nat, delay: Seconds, e: Seconds, top: Overflow)
    requires Representable(p) && 0.0 < Coefficient(p) < 1.0 && 1 < attempt <= LAST_ATTEMPT
    requires delay == Backoff(p, attempt, top) && e == Multiply(Coefficient(p))(Initial(p))
    ensures delay == Capped(Multiply(Coefficient(p)), Initial(p), Maximum(p), attempt - 1)
            <==> attempt == 2 || e <= Maximum(p) || Maximum(p) == 0.0
  {
    NoOverflowBelowOne(p, attempt, top);
    FallbackIsExact(p, attempt, top);
    CapsAgree(Initial(p), Coefficient(p), Maximum(p), attempt - 2, e);
  }

  /**
   The capped backoff law, and exactly when it holds: the delay at attempt n is n - 1 rounds of
   "multiply, then cap" if and only if the maximum is zero, or neither has a zero interval met an
   overflowed power nor has the cap cut into a shrinking delay.
   */
  lemma CappedBackoffLaw(p: RetryPolicy, attempt: nat, top: Overflow)
    requires Representable(p) && 0.0 < Coefficient(p) && 1 <= attempt <= LAST_ATTEMPT
    ensures Backoff(p, attempt, top) == Capped(Multiply(Coefficient(p)), Initial(p), Maximum(p), attempt - 1)
            <==> Maximum(p) == 0.0 || !(ZeroTimesInfinity(p, attempt, top) || CapCutsShrinking(p, attempt))
  {
    if attempt > 1 {
      if Coefficient(p) < 1.0 {
        NoOverflowBelowOne(p, attempt, top);
        ShrinkingLaw(p, attempt, Backoff(p, attempt, top), Multiply(Coefficient(p))(Initial(p)), top);
      } else {
        GrowingLaw(p, attempt, top);
      }
    }
  }

  /** The three parameters as the policy's fields give them, with their defaults. */
  ghost predicate Parameters(p: RetryPolicy, c: real, d: Seconds, max: Seconds) {
    && c == (if p.backoffCoefficient != 0.0 then p.backoffCoefficient else 2.0)
    && d == (if p.initialInterval.Some? && p.initialInterval.value >= 0.0 then p.initialInterval.value else 1.0)
    && max == (if p.maximumInterval.Some? && p.maximumInterval.value >= 0.0 then p.maximumInterval.value
               else if 100.0 * d <= 18446744073709551615.999999999 then 100.0 * d
               else 18446744073709551615.999999999)
  }

  /** Nothing about the failure stops the retry or sets its delay. */
  ghost predicate Unhindered(
      p: RetryPolicy, attempt: nat, failure: Option<ApplicationFailure>, lower: string -> string)
  {
    && (p.maximumAttempts <= 0 || attempt < p.maximumAttempts)
    && (failure.Some? ==> !failure.value.nonRetryable && failure.value.nextRetryDelay.None?)
    && forall t :: t in p.nonRetryableErrorTypes ==>
                     lower(if failure.Some? then failure.value.errorType else "") != lower(t)
  }

  /** Without a refusal or an explicit delay, the answer is the computed delay. */
  lemma UnhinderedWaits(
      p: RetryPolicy, attempt: nat, failure: Option<ApplicationFailure>, lower: string -> string, top: Overflow)
    requires Unhindered(p, attempt, failure, lower)
    ensures ShouldRetry(p, attempt, failure, lower, top) == Some(Backoff(p, attempt, top))
  {
    RefusedExactly(p, attempt, failure, lower, top);
  }

  /**
   The capped backoff law of `should_retry` itself, read off the policy's fields: what it answers is
   n - 1 rounds of "multiply, then cap" exactly under the condition of the law above.
   */
  lemma ShouldRetryLaw(
      p: RetryPolicy, attempt: nat, failure: Option<ApplicationFailure>, lower: string -> string,
      c: real, d: Seconds, max: Seconds, top: Overflow)
    requires Unhindered(p, attempt, failure, lower) && Parameters(p, c, d, max)
    requires 0.0 < c && (d == 0.0 || 0.000000001 <= d < DURATION_LIMIT) && max < DURATION_LIMIT
    requires 1 <= attempt <= 0x8000_0000
    ensures ShouldRetry(p, attempt, failure, lower, top) == Some(Capped(Multiply(c), d, max, attempt - 1)) <==>
            || max == 0.0
            || !(|| (d == 0.0 && attempt > 1 && Power(c, attempt - 1) >= top)
                 || (attempt > 2 && c < 1.0 && Multiply(c)(d) > max))
  {
    UnhinderedWaits(p, attempt, failure, lower, top);
    CappedBackoffLaw(p, attempt, top);
  }

  /** The first retry waits the initial interval, whatever else the policy says. */
  lemma FirstRetryWaitsInitial(
      p: RetryPolicy, failure: Option<ApplicationFailure>, lower: string -> string,
      c: real, d: Seconds, max: Seconds, top: Overflow)
    requires Unhindered(p, 1, failure, lower) && Parameters(p, c, d, max)
    ensures ShouldRetry(p, 1, failure, lower, top) == Some(d)
  {
    UnhinderedWaits(p, 1, failure, lower, top);
  }

  // ----- Negative coefficients -----

  lemma {:induction false} PowerOfNegative(c: real, n: nat)
    ensures Power(c, n) == if n % 2 == 0 then Power(-c, n) else -Power(-c, n)
  {
    if n > 0 {
      PowerOfNegative(c, n - 1);
      assert c * Power(-c, n - 1) == -((-c) * Power(-c, n - 1));
    }
  }

  lemma NegativeProduct(power: real, d: Seconds, max: Seconds, y: real, top: Overflow)
    requires power < 0.0 && 0.0 < d && y == power * d && y < 0.0
    ensures Multiplied(power, d, max, top) == max
  {
    assert TryFromSecs(ToF64(y, top)).None?;
  }

  lemma NegativeTimesPositive(x: real, d: real)
    requires x < 0.0 && 0.0 < d
    ensures x * d < 0.0
  {
    PositiveProduct(-x, d);
    assert x * d == -((-x) * d);
  }

  /**
   A negative coefficient: an odd power does not fit a `Duration` and the delay is the maximum, an even
   one gives the delay of the coefficient without its sign.
   */
  lemma NegativeCoefficient(p: RetryPolicy, attempt: nat, top: Overflow)
    requires Coefficient(p) < 0.0 && 0.0 < Initial(p) && 1 < attempt && 0 <= Exponent(attempt)
    ensures Backoff(p, attempt, top) ==
            if Exponent(attempt) % 2 == 1 then Maximum(p)
            else Backoff(p.(backoffCoefficient := -p.backoffCoefficient), attempt, top)
  {
    var n := Exponent(attempt);
    PowerOfNegative(Coefficient(p), n);
    PowerPositive(-Coefficient(p), n);
    if n % 2 == 1 {
      var power := Power(Coefficient(p), n);
      NegativeTimesPositive(power, Initial(p));
      NegativeProduct(power, Initial(p), Maximum(p), power * Initial(p), top);
    }
  }

  /** The cap holds at every attempt exactly when the first, uncapped delay respects it. */
  lemma CapHoldsIff(p: RetryPolicy, top: Overflow)
    ensures (forall attempt :: Backoff(p, attempt, top) <= Maximum(p)) <==> Initial(p) <= Maximum(p)
  {
    assert Backoff(p, 1, top) == Initial(p);
  }

  // ----- Reaching the maximum -----

  /** Bernoulli's inequality. */
  lemma {:induction false} Bernoulli(c: real, n: nat)
    requires 1.0 <= c
    ensures Power(c, n) >= 1.0 + n as real * (c - 1.0)
  {
    if n > 0 {
      Bernoulli(c, n - 1);
      PowerAtLeastOne(c, n - 1);
      BernoulliStep(c, Power(c, n - 1), (n - 1) as real);
    }
  }

  lemma BernoulliStep(c: real, x: real, m: real)
    requires 1.0 <= c && 1.0 <= x && x >= 1.0 + m * (c - 1.0)
    ensures c * x >= 1.0 + (m + 1.0) * (c - 1.0)
  {
    Scale(1.0, x, c - 1.0);
    assert c * x == x + (c - 1.0) * x;
    assert (m + 1.0) * (c - 1.0) == m * (c - 1.0) + (c - 1.0);
  }

  /** What one round adds to the delay at least. */
  function Gain(d: Seconds, c: real): (r: Seconds)
    requires 0.0 < d && 1.0 < c
    ensures 0.0 < r
  {
    PositiveProduct(d, c - 1.0);
    d * (c - 1.0)
  }

  /** Rounds that certainly add up to `max`. */
  function Rounds(max: Seconds, gain: Seconds): nat
    requires 0.0 < gain
  {
    var n := (max / gain).Floor + 1;
    if n >= 0 then n else 0
  }

  lemma RoundsAreEnough(max: real, gain: real, n: nat)
    requires 0.0 < gain && n >= Rounds(max, gain)
    ensures n as real * gain >= max
  {
    var q := max / gain;
    assert q * gain == max;
    Scale(q, n as real, gain);
  }

  lemma GainsAddUp(x: real, m: real, c: real, d: Seconds)
    requires 1.0 < c && 0.0 < d && x >= 1.0 + m * (c - 1.0)
    ensures x * d >= d + m * Gain(d, c)
  {
    Scale(1.0 + m * (c - 1.0), x, d);
    assert (1.0 + m * (c - 1.0)) * d == d + (m * (c - 1.0)) * d;
    Associate(m, c - 1.0, d);
  }

  /** Exact growth passes every bound. */
  lemma GrowthReaches(d: Seconds, c: real, max: Seconds) returns (n: nat)
    requires 0.0 < d && 1.0 < c
    ensures Grown(Multiply(c), d, n) >= max
  {
    n := Rounds(max, Gain(d, c));
    RoundsAreEnough(max, Gain(d, c), n);
    Bernoulli(c, n);
    GainsAddUp(Power(c, n), n as real, c, d);
    GrownIsProduct(d, c, n);
  }

  lemma {:induction false} GrownIsMonotone(grow: Seconds -> Seconds, d: Seconds, m: nat, n: nat)
    requires Enlarges(grow) && 0.0 <= d && m <= n
    ensures 0.0 <= Grown(grow, d, m) <= Grown(grow, d, n)
  {
    GrownIsLarger(grow, d, m);
    if m < n {
      GrownIsMonotone(grow, d, m, n - 1);
    }
  }

  /** A delay is the maximum exactly when exact growth has reached it. */
  lemma AtMaximumIff(p: RetryPolicy, attempt: nat, top: Overflow)
    requires Representable(p) && 0.0 < Coefficient(p) && 0.0 < Initial(p) && 1 < attempt <= LAST_ATTEMPT
    ensures Backoff(p, attempt, top) == Maximum(p) <==>
            Grown(Multiply(Coefficient(p)), Initial(p), attempt - 1) >= Maximum(p)
  {
    FallbackIsExact(p, attempt, top);
  }

  /** From the first attempt at the maximum on, every attempt stays there. */
  lemma MaximumLasts(p: RetryPolicy, a: nat, b: nat, top: Overflow)
    requires Representable(p) && 1.0 <= Coefficient(p) && 0.0 < Initial(p) && 1 < a <= b <= LAST_ATTEMPT
    requires Backoff(p, a, top) == Maximum(p)
    ensures Backoff(p, b, top) == Maximum(p)
  {
    AtMaximumIff(p, a, top);
    AtMaximumIff(p, b, top);
    MultiplyEnlarges(Coefficient(p));
    GrownIsMonotone(Multiply(Coefficient(p)), Initial(p), a - 1, b - 1);
  }

  /**
   A growing policy reaches its maximum and stays there. Growth always gets there; an attempt that the
   32-bit exponent still serves gets there exactly when the last such attempt does; and once there, every
   later one is too.
   */
  lemma DelayReachesMaximumAndStays(p: RetryPolicy, top: Overflow)
    requires Representable(p) && 1.0 < Coefficient(p) && 0.0 < Initial(p)
    ensures exists n: nat :: Grown(Multiply(Coefficient(p)), Initial(p), n) >= Maximum(p)
    ensures (exists a: nat :: 1 < a <= LAST_ATTEMPT && Backoff(p, a, top) == Maximum(p)) <==>
            Grown(Multiply(Coefficient(p)), Initial(p), LAST_ATTEMPT - 1) >= Maximum(p)
    ensures forall a: nat, b: nat :: 1 < a <= b <= LAST_ATTEMPT && Backoff(p, a, top) == Maximum(p) ==>
                                       Backoff(p, b, top) == Maximum(p)
  {
    var n := GrowthReaches(Initial(p), Coefficient(p), Maximum(p));
    forall a: nat, b: nat | 1 < a <= b <= LAST_ATTEMPT && Backoff(p, a, top) == Maximum(p)
      ensures Backoff(p, b, top) == Maximum(p)
    {
      MaximumLasts(p, a, b, top);
    }
    AtMaximumIff(p, LAST_ATTEMPT, top);
  }

  lemma {:induction false} CappedGrows(grow: Seconds -> Seconds, d: Seconds, max: Seconds, n: nat)
    requires Enlarges(grow) && 0.0 <= d && 0.0 <= max && (0 < n || d <= max)
    ensures 0.0 <= Capped(grow, d, max, n) <= Capped(grow, d, max, n + 1) <= max
  {
    if n > 1 || (n == 1 && d <= max) { CappedGrows(grow, d, max, n - 1); }
  }

  /** A zero interval waits nothing, until its power overflows and it waits the maximum. */
  lemma ZeroIsMonotone(p: RetryPolicy, attempt: nat, top: Overflow)
    requires Representable(p) && 1.0 <= Coefficient(p) && Initial(p) == 0.0 && 1 <= attempt < LAST_ATTEMPT
    ensures Backoff(p, attempt, top) <= Backoff(p, attempt + 1, top)
  {
    var c := Coefficient(p);
    FallbackIsExact(p, attempt + 1, top);
    GrownIsProduct(0.0, c, attempt);
    if attempt > 1 {
      FallbackIsExact(p, attempt, top);
      GrownIsProduct(0.0, c, attempt - 1);
      PowerAtLeastOne(c, attempt - 1);
      Scale(1.0, c, Power(c, attempt - 1));
    }
  }

  /** Delays never shrink from one attempt to the next, unless the first one is above the maximum. */
  lemma DelaysAreMonotone(p: RetryPolicy, attempt: nat, top: Overflow)
    requires Representable(p) && 1.0 <= Coefficient(p) && 1 <= attempt < LAST_ATTEMPT
    ensures Backoff(p, attempt, top) <= Backoff(p, attempt + 1, top) <==> attempt > 1 || Initial(p) <= Maximum(p)
  {
    if Initial(p) == 0.0 {
      ZeroIsMonotone(p, attempt, top);
    } else {
      CappedBackoffLaw(p, attempt, top);
      CappedBackoffLaw(p, attempt + 1, top);
      if attempt > 1 || Initial(p) <= Maximum(p) {
        MultiplyEnlarges(Coefficient(p));
        CappedGrows(Multiply(Coefficient(p)), Initial(p), Maximum(p), attempt - 1);
      }
    }
  }

  // ----- Beyond 32 bits -----

  lemma {:induction false} PowerAboveOne(c: real, n: nat)
    requires 1.0 < c && 0 < n
    ensures 1.0 < Power(c, n)
  {
    if n > 1 {
      PowerAboveOne(c, n - 1);
      Scale(1.0, c, Power(c, n - 1));
    }
  }

  lemma Reciprocal(x: real)
    requires 1.0 < x
    ensures 0.0 < 1.0 / x < 1.0
  {
    assert (1.0 / x) * x == 1.0;
  }

  lemma NegativePowi(c: real, k: int)
    requires 1.0 < c && k < 0
    ensures 0.0 < Powi(c, k) < 1.0
  {
    PowerAboveOne(c, -k);
    Reciprocal(Power(c, -k));
  }

  lemma MultipliedShrinks(power: real, d: Seconds, max: Seconds, y: real, top: Overflow)
    requires 0.0 < power < 1.0 && 0.0 < d <= max < DURATION_LIMIT && y == power * d && 0.0 < y < d
    ensures Multiplied(power, d, max, top) < d
  {
    assert Times(ToF64(power, top), d, top) == Finite(y);
  }

  lemma NegativeExponentWaitsLess(p: RetryPolicy, attempt: nat, top: Overflow)
    requires Representable(p) && 1.0 < Coefficient(p) && 0.0 < Initial(p) <= Maximum(p) && Exponent(attempt) < 0
    ensures Backoff(p, attempt, top) < Initial(p)
  {
    NegativePowi(Coefficient(p), Exponent(attempt));
    var power := Powi(Coefficient(p), Exponent(attempt));
    SmallProduct(power, Initial(p));
    MultipliedShrinks(power, Initial(p), Maximum(p), power * Initial(p), top);
  }

  /**
   A growing policy waits at least its initial interval, as the law asks, exactly at the attempts whose
   exponent the 32-bit cast leaves non-negative, whatever the attempt number is.
   */
  lemma NegativeExponentBreaksLaw(p: RetryPolicy, attempt: nat, top: Overflow)
    requires Representable(p) && 1.0 < Coefficient(p) && 0.0 < Initial(p) <= Maximum(p)
    ensures Backoff(p, attempt, top) >= Initial(p) <==> Exponent(attempt) >= 0
  {
    if Exponent(attempt) < 0 {
      NegativeExponentWaitsLess(p, attempt, top);
    } else if attempt != 1 {
      FallbackIsExact(p, attempt, top);
      MultiplyEnlarges(Coefficient(p));
      GrownIsLarger(Multiply(Coefficient(p)), Initial(p), Exponent(attempt));
    }
  }

  /** An attempt whose exponent wraps to a non-negative one waits what the attempt with that exponent waits. */
  lemma WrappedAttempts(p: RetryPolicy, attempt: nat, top: Overflow)
    requires Representable(p) && 1 < attempt && 0 <= Exponent(attempt)
    ensures Backoff(p, attempt, top) ==
            if Exponent(attempt) == 0 then Min(Initial(p), Maximum(p)) else Backoff(p, Exponent(attempt) + 1, top)
  {
    if Exponent(attempt) == 0 {
      assert Powi(Coefficient(p), 0) == 1.0;
      TriedOrMaximum(1.0, Initial(p), Initial(p), Maximum(p), top);
    }
  }

  lemma {:induction false} GrownIsStrict(d: Seconds, c: real, m: nat, n: nat)
    requires 1.0 < c && 0.0 < d && m < n
    ensures Grown(Multiply(c), d, m) < Grown(Multiply(c), d, n)
  {
    MultiplyEnlarges(c);
    GrownIsLarger(Multiply(c), d, n - 1);
    StrictProduct(c, Grown(Multiply(c), d, n - 1));
    if m < n - 1 { GrownIsStrict(d, c, m, n - 1); }
  }

  lemma StrictProduct(c: real, x: Seconds)
    requires 1.0 < c && 0.0 < x
    ensures x < Multiply(c)(x)
  {
    PositiveProduct(c - 1.0, x);
    assert (c - 1.0) * x == c * x - x;
  }

  lemma ExponentIsNoLarger(attempt: nat)
    requires 1 <= attempt
    ensures Exponent(attempt) <= attempt - 1
  {
  }

  /**
   The capped backoff law at every attempt number, for a growing policy: it holds if and only if the cast
   kept the exponent, or wrapped it to one at which the maximum has already been reached.
   */
  lemma LawBeyond32Bits(p: RetryPolicy, attempt: nat, top: Overflow)
    requires Representable(p) && 1.0 < Coefficient(p) && 0.0 < Initial(p) <= Maximum(p) && 1 <= attempt
    ensures var grow, k := Multiply(Coefficient(p)), Exponent(attempt);
            Backoff(p, attempt, top) == Capped(grow, Initial(p), Maximum(p), attempt - 1) <==>
            k == attempt - 1 || (0 <= k && Grown(grow, Initial(p), k) >= Maximum(p))
  {
    if attempt > 1 {
      var c, d, max, k, n := Coefficient(p), Initial(p), Maximum(p), Exponent(attempt), attempt - 1;
      ExponentIsNoLarger(attempt);
      MultiplyEnlarges(c);
      CappedIsClosed(Multiply(c), d, max, n);
      GrownIsLarger(Multiply(c), d, n);
      NegativeExponentBreaksLaw(p, attempt, top);
      if 0 <= k {
        FallbackIsExact(p, attempt, top);
        if k < n { GrownIsStrict(d, c, k, n); }
      }
    }
  }

  // ----- The limits as powers of two -----

  lemma PowerDoubles(m: nat, x: real, y: real)
    requires Power(2.0, m) == x && y == x * x
    ensures Power(2.0, m + m) == y
  {
    PowerAdds(m, m);
  }

  lemma {:induction false} PowerAdds(m: nat, n: nat)
    ensures Power(2.0, m + n) == Power(2.0, m) * Power(2.0, n)
  {
    if m > 0 {
      PowerAdds(m - 1, n);
      Associate(2.0, Power(2.0, m - 1), Power(2.0, n));
    }
  }

  /** A `Duration` ends at 2 to the 64 seconds. */
  lemma DurationEndsAtTwoTo64(e: nat)
    requires e == 64
    ensures DURATION_LIMIT == Power(2.0, e)
  {
    var one: nat := 1;
    assert Power(2.0, one) == 2.0 * Power(2.0, one - 1);
    PowerDoubles(one, 2.0, 4.0);
    PowerDoubles(one * 2, 4.0, 16.0);
    PowerDoubles(one * 4, 16.0, 256.0);
    PowerDoubles(one * 8, 256.0, 65536.0);
    PowerDoubles(one * 16, 65536.0, 4294967296.0);
    PowerDoubles(one * 32, 4294967296.0, DURATION_LIMIT);
  }

  lemma TwoTo94(a: nat, b: nat)
    requires a == 64 && b == 30
    ensures TWO_94 == Power(2.0, a + b)
  {
    DurationEndsAtTwoTo64(a);
    var one: nat := 1;
    assert Power(2.0, one) == 2.0 * Power(2.0, one - 1);
    PowerDoubles(one, 2.0, 4.0);
    PowerAdds(one, one * 2);
    PowerAdds(one * 3, one * 2);
    PowerDoubles(one * 5, 32.0, 1024.0);
    PowerAdds(one * 10, one * 10);
    PowerAdds(one * 20, one * 10);
    PowerAdds(a, b);
  }

  lemma {:induction false} PowerOfTwoGrows(m: nat, n: nat)
    requires m <= n
    ensures 0.0 < Power(2.0, m) <= Power(2.0, n)
  {
    PowerPositive(2.0, n);
    PowerPositive(2.0, m);
    if m < n { PowerOfTwoGrows(m, n - 1); }
  }

  /** Every format whose numbers reach 2 to the 94 is covered, the doubles with their 2 to the 1024 among them. */
  lemma DoublesAreCovered(f: nat)
    requires f >= 94
    ensures Power(2.0, f) >= TWO_94
  {
    TwoTo94(64, 30);
    PowerOfTwoGrows(94, f);
  }

  // ----- Policies that show the failures -----

  function Policy(initial: Seconds, coefficient: real, maximum: Seconds): RetryPolicy {
    RetryPolicy(Some(initial), coefficient, Some(maximum), 0, [])
  }

  /** Attempt 0 of the default shape of policy waits half the initial interval. */
  lemma AttemptZeroWaitsHalf(top: Overflow)
    ensures Exponent(0) == -1 && Backoff(Policy(1.0, 2.0, 100.0), 0, top) == 0.5
  {
    assert Power(2.0, 1) == 2.0 * Power(2.0, 0);
    assert Powi(2.0, -1) == 0.5;
  }

  /** No interval at all, and the third attempt waits ten seconds: with a coefficient of half the largest power. */
  lemma ZeroTimesInfinityHappens(c: real, top: Overflow)
    requires c == top / 2.0
    ensures var p := Policy(0.0, c, 10.0);
            Representable(p) && c < top && ZeroTimesInfinity(p, 3, top) && Backoff(p, 3, top) == 10.0
            && Capped(Multiply(c), 0.0, 10.0, 2) == 0.0
  {
    var p := Policy(0.0, c, 10.0);
    HalfSquared(top, c);
    assert Power(c, 2) == c * Power(c, 1);
    assert Power(c, 1) == c * Power(c, 0);
    assert Capped(Multiply(c), 0.0, 10.0, 1) == 0.0;
  }

  lemma HalfSquared(x: real, c: real)
    requires 4.0 <= x && c == x / 2.0
    ensures c * c >= x
  {
    Scale(2.0, c, c);
  }

  /** 100, then 50 capped to 10; the third delay is 25 capped to 10, not half of 10. */
  lemma ShrinkingCutHappens(top: Overflow)
    ensures var p := Policy(100.0, 0.5, 10.0);
            Representable(p) && CapCutsShrinking(p, 3) && Backoff(p, 3, top) == 10.0
            && Capped(Multiply(0.5), 100.0, 10.0, 2) == 5.0
  {
    assert Power(0.5, 2) == 0.5 * Power(0.5, 1);
    assert Power(0.5, 1) == 0.5 * Power(0.5, 0);
    assert Capped(Multiply(0.5), 100.0, 10.0, 1) == 10.0;
  }

  /** The first delay is not capped. */
  lemma InitialAboveMaximumHappens(top: Overflow)
    ensures var p := Policy(100.0, 2.0, 10.0);
            Backoff(p, 1, top) == 100.0 && Backoff(p, 1, top) > Maximum(p) && Backoff(p, 2, top) == 10.0
  {
    assert Power(2.0, 1) == 2.0 * Power(2.0, 0);
  }
}
