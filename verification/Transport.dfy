/**
 * The retry loop of the HTTP transport, over the answers the server gives, the
 * random numbers drawn for jitter and the moments the context is cancelled.
 * Durations are int64 nanoseconds and wrap as they do in the program.
 */
module Transport {

  const MILLISECOND: int := 1_000_000
  const SECOND: int := 1_000_000_000
  const MAX_RETRY_AFTER: int := 300 * SECOND
  const MAX_BACKOFF: int := 5 * SECOND

  // ---------------------------------------------------------------- int64

  const TWO63: int := 0x8000_0000_0000_0000
  const TWO64: int := 0x1_0000_0000_0000_0000

  // The int64 that a mathematical integer wraps to.
  function Wrap(x: int): int {
    (x + TWO63) % TWO64 - TWO63
  }

  function Pow2(n: nat): nat {
    if n == 0 then 1 else 2 * Pow2(n - 1)
  }

  // ---------------------------------------------------------------- Retry-After

  // The header after trimming: an int64 number of seconds, an HTTP date so many
  // nanoseconds from now, or nothing usable.
  datatype Header = Empty | Seconds(n: int) | Date(fromNow: int) | Unusable

  function ParseRetryAfter(h: Header): int {
    match h
    case Seconds(n) =>
      if n <= 0 then 0
      else
        var d := Wrap(n * SECOND);
        if d > MAX_RETRY_AFTER then MAX_RETRY_AFTER else d
    case Date(d) => if d <= 0 then 0 else if d > MAX_RETRY_AFTER then MAX_RETRY_AFTER else d
    case _ => 0
  }

  // The delay a header asks for, clamped.
  function Requested(h: Header): int {
    match h
    case Seconds(n) => if n <= 0 then 0 else if n > 300 then MAX_RETRY_AFTER else n * SECOND
    case Date(d) => if d <= 0 then 0 else if d > MAX_RETRY_AFTER then MAX_RETRY_AFTER else d
    case _ => 0
  }

  lemma WrapSmall(x: int)
    requires -TWO63 <= x < TWO63
    ensures Wrap(x) == x
  {
  }

  // The clamp comes after the multiplication, so a huge number of seconds can wrap
  // to a short, or a negative, delay. The result is the clamped request exactly
  // when it is short enough to need no clamp, or the wrapped product still exceeds it.
  lemma ClampHoldsExactlyWhen(n: int)
    ensures ParseRetryAfter(Seconds(n)) == Requested(Seconds(n))
       <==> n <= 300 || Wrap(n * SECOND) >= MAX_RETRY_AFTER
    ensures n <= 9_223_372_036 ==> ParseRetryAfter(Seconds(n)) == Requested(Seconds(n))
  {
    if 0 < n <= 9_223_372_036 {
      WrapSmall(n * SECOND);
    }
  }

  lemma HugeRetryAfterWraps()
    ensures ParseRetryAfter(Seconds(9_223_372_037)) < 0
    ensures 0 < ParseRetryAfter(Seconds(18_446_744_074)) < SECOND
  {
    assert 9_223_372_037 * SECOND - TWO64 == -9_223_372_036_709_551_616;
    assert 18_446_744_074 * SECOND - TWO64 == 290_448_384;
  }

  // ---------------------------------------------------------------- backoff

  // time.Duration(100*(1<<uint(k-1))) * time.Millisecond, capped; k is the attempt.
  function Base(k: nat): int
    requires k >= 1
  {
    var base := Wrap(Wrap(100 * Wrap(Pow2(k - 1))) * MILLISECOND);
    if base > MAX_BACKOFF then MAX_BACKOFF else base
  }

  function Min(a: int, b: int): int {
    if a < b then a else b
  }

  lemma {:induction false} PowMonotone(a: nat, b: nat)
    requires a <= b
    ensures 1 <= Pow2(a) <= Pow2(b)
  {
    if a < b {
      PowMonotone(a, b - 1);
    } else if a > 0 {
      PowMonotone(a - 1, b - 1);
    }
  }

  lemma PowersOfTwo()
    ensures Pow2(36) == 68_719_476_736 && Pow2(37) == 137_438_953_472
  {
    assert Pow2(6) == 64;
    assert Pow2(12) == 4_096;
    assert Pow2(18) == 262_144;
    assert Pow2(24) == 16_777_216;
    assert Pow2(30) == 1_073_741_824;
    assert Pow2(36) == 68_719_476_736;
  }

  // Up to attempt 37 nothing overflows: the base is the capped exponential.
  lemma BackoffIsExponential(k: nat)
    requires 1 <= k <= 37
    ensures Base(k) == Min(100_000_000 * Pow2(k - 1), 5_000_000_000)
    ensures Base(k) >= 100_000_000
  {
    PowMonotone(k - 1, 36);
    PowersOfTwo();
    var p := Pow2(k - 1);
    assert 1 <= p <= 68_719_476_736;
    WrapSmall(p);
    WrapSmall(100 * p);
    WrapSmall(100 * p * MILLISECOND);
  }

  // At attempt 38 the product wraps to a negative number, which rand.Int63n rejects.
  lemma BackoffWrapsAt38()
    ensures Base(38) < 0
  {
    PowersOfTwo();
    WrapSmall(137_438_953_472);
    WrapSmall(13_743_895_347_200);
    var product := 13_743_895_347_200 * MILLISECOND;
    assert product == 13_743_895_347_200_000_000;
    assert Wrap(product) == product - TWO64;
  }

  // rand.Int63n(n): panics unless n is positive.
  predicate Draws(n: int, r: int) {
    0 <= r < n
  }

  // ---------------------------------------------------------------- the loop

  datatype Response = NetworkError | Status(code: int, retryAfter: Header)

  datatype Cancel = Never | BeforeAttempt | WhileWaiting

  datatype Result =
    | Delivered
    | Permanent(code: int)     // permanentSendError
    | Transient                // retries exhausted
    | Cancelled
    | NotSent                  // the payload or the request could not be built
    | Panicked

  predicate Success(r: Response) {
    r.Status? && 200 <= r.code < 300
  }

  predicate Is4xxPermanent(code: int) {
    400 <= code < 500 && code != 429
  }

  predicate Decisive(r: Response) {
    Success(r) || (r.Status? && Is4xxPermanent(r.code))
  }

  function VerdictOf(r: Response): Result {
    if Success(r) then Delivered else if Decisive(r) then Permanent(r.code) else NotSent
  }

  // The delay asked for by the answer to the previous attempt.
  function Hint(r: Response): int {
    if r.Status? && (r.code == 429 || r.code == 503) then ParseRetryAfter(r.retryAfter) else 0
  }

  // The delay kept for the next wait is the one the last answer asked for.
  predicate Hinted(previous: Response, retryAfter: int) {
    if Hint(previous) > 0 then retryAfter == Hint(previous) else retryAfter <= 0
  }

  // The answers before the n-th that say 429.
  function RateLimits(answers: nat -> Response, n: nat): nat {
    if n == 0 then 0
    else RateLimits(answers, n - 1) + (if answers(n - 1).Status? && answers(n - 1).code == 429 then 1 else 0)
  }

  // Within 75% and 125% of the exponential backoff before attempt k.
  predicate AroundBackoff(k: nat, wait: int)
    requires k >= 1
  {
    var exponential := Min(100 * MILLISECOND * Pow2(k - 1), MAX_BACKOFF);
    3 * exponential <= 4 * wait <= 5 * exponential
  }

  // What one wait must be: what the server asked for, at most five minutes, or its
  // base, at most five seconds, give or take a quarter. Up to attempt 37 the base is
  // the exponential backoff; beyond, where it has wrapped, it is whatever it is.
  predicate WaitOk(k: nat, previous: Response, wait: int)
    requires k >= 1
  {
    if Hint(previous) > 0 then wait == Hint(previous) <= MAX_RETRY_AFTER
    else 2 <= Base(k) <= MAX_BACKOFF && 3 * Base(k) <= 4 * wait <= 5 * Base(k) && (k <= 37 ==> AroundBackoff(k, wait))
  }

  // waits[i] was spent between attempts i and i+1, both counted from zero.
  ghost predicate WaitsOk(answers: nat -> Response, waits: seq<int>) {
    forall i: nat :: i < |waits| ==> WaitOk(i + 1, answers(i), waits[i])
  }

  lemma WaitsAppend(answers: nat -> Response, waits: seq<int>, wait: int)
    requires WaitsOk(answers, waits) && WaitOk(|waits| + 1, answers(|waits|), wait)
    ensures WaitsOk(answers, waits + [wait])
  {
  }

  ghost predicate AllFail(answers: nat -> Response, cancel: nat -> Cancel) {
    forall k: nat :: answers(k).NetworkError? && cancel(k).Never?
  }

  function Max(a: int, b: int): int {
    if a > b then a else b
  }

  // The first `attempts` answers decided nothing, and no more were asked for than allowed.
  ghost predicate Undecided(maxRetries: int, answers: nat -> Response, attempts: nat) {
    attempts <= Max(0, maxRetries + 1) && forall i: nat :: i < attempts ==> !Decisive(answers(i))
  }

  // The result of a send that made so many attempts.
  ghost predicate Outcome(maxRetries: int, answers: nat -> Response, attempts: nat, result: Result) {
    match result
    case Delivered => 1 <= attempts && Undecided(maxRetries, answers, attempts - 1)
                      && attempts <= maxRetries + 1 && Success(answers(attempts - 1))
    case Permanent(code) => 1 <= attempts && Undecided(maxRetries, answers, attempts - 1)
                      && attempts <= maxRetries + 1 && Decisive(answers(attempts - 1))
                      && !Success(answers(attempts - 1)) && answers(attempts - 1).code == code
    case Transient => Undecided(maxRetries, answers, attempts) && attempts == Max(0, maxRetries + 1)
    case _ => Undecided(maxRetries, answers, attempts)
  }

  // The index of the first decisive answer from index i on, at most n.
  function FirstDecisive(answers: nat -> Response, i: nat, n: nat): (d: nat)
    requires i <= n
    ensures i <= d <= n && (d < n ==> Decisive(answers(d)))
    ensures forall j: nat :: i <= j < d ==> !Decisive(answers(j))
    decreases n - i
  {
    if i >= n || Decisive(answers(i)) then i else FirstDecisive(answers, i + 1, n)
  }

  // What an undisturbed send returns, and after how many attempts.
  function Simple(maxRetries: nat, answers: nat -> Response): (Result, nat) {
    var n := maxRetries + 1;
    var d := FirstDecisive(answers, 0, n);
    if d == n then (Transient, n)
    else if Success(answers(d)) then (Delivered, d + 1)
    else (Permanent(answers(d).code), d + 1)
  }

  lemma {:induction false} FirstDecisiveIs(answers: nat -> Response, i: nat, n: nat, d: nat)
    requires i <= d <= n && (forall j: nat :: i <= j < d ==> !Decisive(answers(j)))
    requires d == n || Decisive(answers(d))
    ensures FirstDecisive(answers, i, n) == d
    decreases d - i
  {
    if i < d {
      FirstDecisiveIs(answers, i + 1, n, d);
    }
  }

  // The retry loop refines "take the first decisive answer": nil exactly for a
  // success, a permanent error exactly for a permanent 4xx, else it is exhausted.
  lemma SendTakesFirstDecisive(maxRetries: nat, answers: nat -> Response, attempts: nat, result: Result)
    requires Outcome(maxRetries, answers, attempts, result)
    requires result.Delivered? || result.Permanent? || result.Transient?
    ensures (result, attempts) == Simple(maxRetries, answers)
  {
    var d := if result.Transient? then attempts else attempts - 1;
    FirstDecisiveIs(answers, 0, maxRetries + 1, d);
  }

  lemma BaseAround38(k: nat)
    requires k >= 1
    ensures k <= 37 ==> Base(k) >= 2
    ensures k == 38 ==> Base(k) < 2
  {
    if k <= 37 {
      BackoffIsExponential(k);
    } else if k == 38 {
      BackoffWrapsAt38();
    }
  }

  // An answer that neither delivers nor rejects the load for good: none at all, a 429,
  // or a status outside 200..299 and 400..499.
  predicate Passing(r: Response) {
    r.NetworkError? || r.code == 429 || (!(200 <= r.code < 300) && !(400 <= r.code < 500))
  }

  // The outcome of a send, told by the numbers of the answers.
  ghost predicate ByNumbers(answers: nat -> Response, attempts: nat, result: Result) {
    match result
    case Delivered =>
      && attempts >= 1 && answers(attempts - 1).Status? && 200 <= answers(attempts - 1).code < 300
      && (forall i: nat :: i < attempts - 1 ==> Passing(answers(i)))
    case Permanent(code) =>
      && attempts >= 1 && answers(attempts - 1).Status? && answers(attempts - 1).code == code
      && 400 <= code < 500 && code != 429
      && (forall i: nat :: i < attempts - 1 ==> Passing(answers(i)))
    case _ => forall i: nat :: i < attempts ==> Passing(answers(i))
  }

  lemma PassingIsUndecided(r: Response)
    ensures Decisive(r) <==> !Passing(r)
  {
  }

  lemma OutcomeByNumbers(maxRetries: int, answers: nat -> Response, attempts: nat, result: Result)
    requires Outcome(maxRetries, answers, attempts, result)
    ensures ByNumbers(answers, attempts, result)
  {
    forall r: Response
      ensures Decisive(r) <==> !Passing(r)
    {
      PassingIsUndecided(r);
    }
  }

  // The answers that were 429, counted.
  lemma {:induction false} RateLimitsAre(answers: nat -> Response, n: nat)
    ensures RateLimits(answers, n) == |set i: nat | i < n && answers(i).Status? && answers(i).code == 429|
  {
    if n > 0 {
      RateLimitsAre(answers, n - 1);
      var before := set i: nat | i < n - 1 && answers(i).Status? && answers(i).code == 429;
      var after := set i: nat | i < n && answers(i).Status? && answers(i).code == 429;
      assert after == if answers(n - 1).Status? && answers(n - 1).code == 429 then before + {n - 1} else before;
    }
  }

  // The delay asked for by an answer, in nanoseconds: only a 429 or a 503 asks, for at
  // least one and at most 300 seconds up to the point where the product wraps.
  lemma HintIs(r: Response)
    ensures r.NetworkError? || (r.code != 429 && r.code != 503) ==> Hint(r) == 0
    ensures r.Status? && (r.code == 429 || r.code == 503) ==>
      match r.retryAfter
      case Seconds(n) =>
        && (n <= 0 ==> Hint(r) == 0)
        && (0 < n <= 300 ==> Hint(r) == n * 1_000_000_000)
        && (300 < n <= 9_223_372_036 ==> Hint(r) == 300_000_000_000)
      case Date(d) => Hint(r) == if d <= 0 then 0 else if d <= 300_000_000_000 then d else 300_000_000_000
      case _ => Hint(r) == 0
  {
    if r.Status? && r.retryAfter.Seconds? && 0 < r.retryAfter.n <= 9_223_372_036 {
      WrapSmall(r.retryAfter.n * SECOND);
    }
  }

  // What every wait is, in nanoseconds: n seconds after a 429 or 503 that asked for n,
  // at most 300; otherwise, up to the 37th retry, within a quarter of the smaller of
  // 0.1 s doubled at each retry and 5 s.
  ghost predicate WaitsInNumbers(answers: nat -> Response, waits: seq<int>) {
    forall i: nat :: i < |waits| ==>
      var r := answers(i);
      && (r.Status? && (r.code == 429 || r.code == 503) && r.retryAfter.Seconds? && 0 < r.retryAfter.n <= 300 ==>
            waits[i] == r.retryAfter.n * 1_000_000_000)
      && (i < 37 && (r.NetworkError? || (r.code != 429 && r.code != 503)) ==>
            var exponential := if 100_000_000 * Pow2(i) < 5_000_000_000 then 100_000_000 * Pow2(i) else 5_000_000_000;
            3 * exponential <= 4 * waits[i] <= 5 * exponential)
  }

  lemma WaitsAreNumbers(answers: nat -> Response, waits: seq<int>)
    requires WaitsOk(answers, waits)
    ensures WaitsInNumbers(answers, waits)
  {
    hide Pow2, Base, Hint;
    forall i: nat | i < |waits|
      ensures WaitOk(i + 1, answers(i), waits[i])
    {
    }
    forall r: Response
      ensures r.NetworkError? || (r.code != 429 && r.code != 503) ==> Hint(r) == 0
      ensures r.Status? && (r.code == 429 || r.code == 503) && r.retryAfter.Seconds? && 0 < r.retryAfter.n <= 300 ==>
        Hint(r) == r.retryAfter.n * 1_000_000_000
    {
      HintIs(r);
    }
  }

  // With enough network errors some backoff computation panics, exactly when more
  // than 37 retries are allowed.
  lemma BackoffIsSafeExactlyUpTo37(maxRetries: nat)
    ensures (forall k: nat :: 1 <= k <= maxRetries ==> Base(k) >= 2) <==> maxRetries <= 37
  {
    if maxRetries <= 37 {
      forall k: nat | 1 <= k <= maxRetries
        ensures Base(k) >= 2
      {
        BaseAround38(k);
      }
    } else {
      BaseAround38(38);
    }
  }

  // Where the loop stands before an attempt: nothing has been decided, every wait was
  // as promised, and retryAfter is what the last answer asked for.
  ghost predicate Tracked(maxRetries: int, answers: nat -> Response, cancel: nat -> Cancel,
                          attempts: nat, retryAfter: int, waits: seq<int>) {
    && Undecided(maxRetries, answers, attempts)
    && |waits| == Max(0, attempts - 1) && WaitsOk(answers, waits)
    && (if attempts == 0 then retryAfter == 0 else Hinted(answers(attempts - 1), retryAfter))
    && (AllFail(answers, cancel) ==> attempts <= 38)
  }

  function Previous(answers: nat -> Response, k: nat): Response {
    if k == 0 then NetworkError else answers(k - 1)
  }

  lemma TrackedHere(maxRetries: int, answers: nat -> Response, cancel: nat -> Cancel,
                    k: nat, retryAfter: int, waits: seq<int>)
    requires Tracked(maxRetries, answers, cancel, k, retryAfter, waits)
    ensures if k == 0 then retryAfter == 0 else Hinted(Previous(answers, k), retryAfter)
    ensures AllFail(answers, cancel) ==> cancel(k).Never? && Hint(Previous(answers, k)) == 0
    ensures |waits| == Max(0, k - 1) && WaitsOk(answers, waits)
    ensures Outcome(maxRetries, answers, k, Cancelled) && Outcome(maxRetries, answers, k, Panicked)
    ensures Outcome(maxRetries, answers, k, NotSent)
    ensures k > maxRetries ==> Outcome(maxRetries, answers, k, Transient)
  {
  }

  // The k-th attempt was made, after the given waits, and answered.
  lemma TrackedNext(maxRetries: int, answers: nat -> Response, cancel: nat -> Cancel,
                    k: nat, retryAfter: int, waits: seq<int>, waits': seq<int>, retryAfter': int)
    requires Tracked(maxRetries, answers, cancel, k, retryAfter, waits) && k <= maxRetries
    requires AllFail(answers, cancel) ==> k < 38
    requires if k == 0 then waits' == waits
             else |waits'| == |waits| + 1 && waits' == waits + [waits'[|waits|]]
                  && WaitOk(k, Previous(answers, k), waits'[|waits|])
    requires !Decisive(answers(k)) ==> Hinted(answers(k), retryAfter')
    ensures if Decisive(answers(k)) then Outcome(maxRetries, answers, k + 1, VerdictOf(answers(k)))
            else Tracked(maxRetries, answers, cancel, k + 1, retryAfter', waits')
    ensures |waits'| == k && WaitsOk(answers, waits')
  {
    hide WaitOk, Hinted;
    if k > 0 {
      WaitsAppend(answers, waits, waits'[|waits|]);
    }
  }

  lemma OneMoreLimit(answers: nat -> Response, k: nat)
    ensures RateLimits(answers, k + 1)
         == RateLimits(answers, k) + (if answers(k).Status? && answers(k).code == 429 then 1 else 0)
  {
  }

  lemma NoAnswerNoHint(r: Response, retryAfter: int)
    requires r.NetworkError? && retryAfter <= 0
    ensures Hinted(r, retryAfter) && !Decisive(r)
  {
  }

  class HttpTransport {
    const keyed: bool           // the API key is not empty
    const maxRetries: int
    var retryAttempts: nat
    var rateLimited: nat

    constructor (keyed: bool, maxRetries: int)
      ensures this.keyed == keyed && this.maxRetries == maxRetries && retryAttempts == rateLimited == 0
    {
      this.keyed, this.maxRetries := keyed, maxRetries;
      retryAttempts, rateLimited := 0, 0;
    }

    // Count a retry and compute the wait before attempt k, which follows the answer
    // `previous`; draw(n) is rand.Int63n(n) for positive n.
    method Wait(k: nat, retryAfter: int, draw: int -> int, ghost previous: Response)
      returns (panicked: bool, sleep: int, rest: int)
      requires k >= 1 && forall n: int :: n > 0 ==> Draws(n, draw(n))
      requires Hinted(previous, retryAfter)
      modifies this`retryAttempts
      ensures retryAttempts == old(retryAttempts) + 1
      ensures panicked <==> Hint(previous) <= 0 && Base(k) < 2
      ensures !panicked ==> WaitOk(k, previous, sleep)
      ensures rest <= 0
    {
      retryAttempts := retryAttempts + 1;
      panicked, sleep, rest := false, 0, retryAfter;
      if k <= 37 {
        BackoffIsExponential(k);
      }
      if retryAfter > 0 {
        sleep := retryAfter;
        rest := 0;
      } else {
        var base := Base(k);
        // base/2, truncated toward zero, must be positive
        panicked := base < 2;
        if !panicked {
          var jitter := draw(base / 2);
          assert Draws(base / 2, jitter);
          sleep := base - base / 4 + jitter;
        }
      }
    }

    // Before an attempt: stop if cancelled; before a retry, wait.
    method Prepare(k: nat, retryAfter: int, draw: int -> int, cancel: Cancel, ghost previous: Response)
      returns (stopped: bool, result: Result, sleep: int, rest: int)
      requires forall n: int :: n > 0 ==> Draws(n, draw(n))
      requires if k == 0 then retryAfter == 0 else Hinted(previous, retryAfter)
      modifies this`retryAttempts
      ensures if stopped then result.Cancelled? || result.Panicked? else result == NotSent && rest <= 0
      ensures cancel.Never? ==> !result.Cancelled?
      ensures result.Panicked? ==> k >= 38
      ensures k == 38 && Hint(previous) == 0 && cancel.Never? ==> result.Panicked?
      ensures !stopped && k > 0 ==> WaitOk(k, previous, sleep)
      ensures !stopped ==> retryAttempts == old(retryAttempts) + (if k > 0 then 1 else 0)
    {
      stopped, result, sleep, rest := true, Cancelled, 0, retryAfter;
      if cancel.BeforeAttempt? {
        return;
      }
      if k > 0 {
        hide Pow2, Base, WaitOk;
        var panicked;
        panicked, sleep, rest := Wait(k, retryAfter, draw, previous);
        BaseAround38(k);
        if panicked {
          result := Panicked;
          return;
        }
        if cancel.WhileWaiting? {
          return;
        }
      }
      stopped, result := false, NotSent;
    }

    // What the status of a response means for the send, and for the next wait.
    method Judge(answer: Response, retryAfter: int) returns (decided: bool, result: Result, next: int)
      requires answer.Status? && retryAfter <= 0
      modifies this`rateLimited
      ensures decided <==> Decisive(answer)
      ensures result == VerdictOf(answer)
      ensures rateLimited == old(rateLimited) + (if answer.code == 429 then 1 else 0)
      ensures !decided ==> Hinted(answer, next)
    {
      decided, result, next := true, NotSent, retryAfter;
      if Success(answer) {
        result := Delivered;
        return;
      }
      if answer.code == 429 {
        rateLimited := rateLimited + 1;
      }
      if Is4xxPermanent(answer.code) {
        result := Permanent(answer.code);
        return;
      }
      decided := false;
      if answer.code == 429 || answer.code == 503 {
        next := ParseRetryAfter(answer.retryAfter);
      }
    }

    method Send(encodable: bool, buildable: bool, answers: nat -> Response, draw: int -> int, cancel: nat -> Cancel)
      returns (result: Result, attempts: nat, waits: seq<int>)
      requires forall n: int :: n > 0 ==> Draws(n, draw(n))
      modifies this
      ensures !keyed ==> result == Delivered && attempts == 0
      ensures keyed && !encodable ==> result == NotSent && attempts == 0
      // The result is the verdict of the first decisive answer among those allowed.
      ensures keyed && encodable ==> Outcome(maxRetries, answers, attempts, result)
      ensures keyed ==> ByNumbers(answers, attempts, result)
      ensures attempts <= if maxRetries < 0 then 0 else maxRetries + 1
      ensures result.Transient? ==> attempts == if maxRetries < 0 then 0 else maxRetries + 1
      // Only cancellation, an unbuildable request or a panic ends it otherwise.
      ensures (forall k: nat :: cancel(k).Never?) ==> !result.Cancelled?
      ensures buildable && encodable ==> !result.NotSent?
      ensures maxRetries <= 37 ==> !result.Panicked?
      ensures keyed && encodable && buildable && maxRetries >= 38 && AllFail(answers, cancel) ==> result.Panicked?
      // The counters count the retries and the rate limits.
      ensures rateLimited == old(rateLimited)
        + (if keyed then |set i: nat | i < attempts && answers(i).Status? && answers(i).code == 429| else 0)
      ensures result.Delivered? || result.Permanent? || result.Transient? ==>
        retryAttempts == old(retryAttempts) + Max(0, attempts - 1)
      // Each wait is as long as promised, however many retries are allowed.
      ensures WaitsOk(answers, waits) && WaitsInNumbers(answers, waits)
      ensures result.Delivered? || result.Permanent? || result.Transient? ==> |waits| == Max(0, attempts - 1)
    {
      result, attempts, waits := NotSent, 0, [];
      if !keyed {
        return Delivered, 0, [];
      }
      if !encodable {
        return;
      }
      result, attempts, waits := Attempts(buildable, answers, draw, cancel);
      OutcomeByNumbers(maxRetries, answers, attempts, result);
      WaitsAreNumbers(answers, waits);
      RateLimitsAre(answers, attempts);
    }

    // The loop over the attempts.
    method Attempts(buildable: bool, answers: nat -> Response, draw: int -> int, cancel: nat -> Cancel)
      returns (result: Result, attempts: nat, waits: seq<int>)
      requires forall n: int :: n > 0 ==> Draws(n, draw(n))
      modifies this
      ensures Outcome(maxRetries, answers, attempts, result)
      ensures (forall k: nat :: cancel(k).Never?) ==> !result.Cancelled?
      ensures buildable ==> !result.NotSent?
      ensures maxRetries <= 37 ==> !result.Panicked?
      ensures buildable && maxRetries >= 38 && AllFail(answers, cancel) ==> result.Panicked?
      ensures rateLimited == old(rateLimited) + RateLimits(answers, attempts)
      ensures result.Delivered? || result.Permanent? || result.Transient? ==>
        retryAttempts == old(retryAttempts) + Max(0, attempts - 1) && |waits| == Max(0, attempts - 1)
      ensures WaitsOk(answers, waits)
    {
      assert Tracked(maxRetries, answers, cancel, 0, 0, []);
      assert RateLimits(answers, 0) == 0;
      hide *;
      result, attempts, waits := NotSent, 0, [];
      var retryAfter := 0;
      while attempts <= maxRetries
        invariant Tracked(maxRetries, answers, cancel, attempts, retryAfter, waits)
        invariant attempts > 0 ==> buildable
        invariant result == NotSent
        invariant rateLimited == old(rateLimited) + RateLimits(answers, attempts)
        invariant retryAttempts == old(retryAttempts) + |waits|
        decreases maxRetries + 1 - attempts
      {
        ghost var k, waited, asked := attempts, waits, retryAfter;
        TrackedHere(maxRetries, answers, cancel, k, asked, waited);
        var stopped, sleep;
        stopped, result, sleep, retryAfter :=
          Prepare(attempts, retryAfter, draw, cancel(attempts), Previous(answers, k));
        if stopped {
          return;
        }
        if attempts > 0 {
          waits := waits + [sleep];
        }
        if !buildable {
          return;
        }
        var answer := answers(attempts);
        attempts := attempts + 1;
        OneMoreLimit(answers, k);
        if answer.NetworkError? {
          NoAnswerNoHint(answer, retryAfter);
          TrackedNext(maxRetries, answers, cancel, k, asked, waited, waits, retryAfter);
          continue;
        }
        var decided;
        decided, result, retryAfter := Judge(answer, retryAfter);
        TrackedNext(maxRetries, answers, cancel, k, asked, waited, waits, retryAfter);
        if decided {
          return;
        }
      }
      result := Transient;
      TrackedHere(maxRetries, answers, cancel, attempts, retryAfter, waits);
    }
  }
}
