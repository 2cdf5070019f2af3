/** Reconnect delays: exponential backoff with jitter, and the attempt counter that drives it. */
module Backoff {
  const INITIAL_BACKOFF_MS: nat := 1000
  const MAX_BACKOFF_MS: nat := 60_000
  const JITTER_MS: nat := 1000
  const TWO_31: nat := 0x8000_0000
  const TWO_32: nat := 0x1_0000_0000

  function Pow2(n: nat): (p: nat)
    ensures p >= 1
  {
    if n == 0 then 1 else 2 * Pow2(n - 1)
  }

  // ms * 2^-n, truncated.
  function Halved(ms: nat, n: nat): (h: nat)
    ensures n >= 1 ==> h <= ms / 2
  {
    if n == 0 then ms else Halved(ms, n - 1) / 2
  }

  // The u32 attempt is cast to i32 before it becomes the exponent.
  function Exponent(attempt: nat): int
    requires attempt < TWO_32
  {
    if attempt < TWO_31 then attempt else attempt - TWO_32
  }

  function BaseMs(attempt: nat): nat
    requires attempt < TWO_32
  {
    var e := Exponent(attempt);
    var ms := if e >= 0 then INITIAL_BACKOFF_MS * Pow2(e) else Halved(INITIAL_BACKOFF_MS, -e);
    if ms < MAX_BACKOFF_MS then ms else MAX_BACKOFF_MS
  }

  function BackoffDelay(attempt: nat, jitter: nat): nat
    requires attempt < TWO_32 && jitter < JITTER_MS
  {
    BaseMs(attempt) + jitter
  }

  // ----- the reconnect loop -----

  // How one pass of the loop ends; all but the first have connected.
  datatype Pass = ConnectError | SubscribeError | Disconnected

  // Failures since the counter was last zero: a successful connection resets it.
  function Failures(passes: seq<Pass>): (k: nat)
    ensures k <= |passes|
    ensures passes != [] ==> k >= 1
  {
    if passes == [] then 0
    else if passes[|passes| - 1].ConnectError? then Failures(passes[..|passes| - 1]) + 1
    else 1
  }

  ghost predicate Jitters(jitters: seq<nat>) {
    forall i :: 0 <= i < |jitters| ==> jitters[i] < JITTER_MS
  }

  // Arithmetic on the u32 counter wraps around, as it does in a release build.
  function Wrapped(x: int): (w: nat)
    ensures w < TWO_32
  {
    x % TWO_32
  }

  lemma {:induction false} WrappedStep(k: nat)
    ensures Wrapped(Wrapped(k) + 1) == Wrapped(k + 1)
    ensures Wrapped(Wrapped(k + 1) - 1) == Wrapped(k)
  {
  }

  method Reconnect(passes: seq<Pass>, jitters: seq<nat>) returns (waits: seq<nat>)
    requires |jitters| == |passes| && Jitters(jitters)
    ensures |waits| == |passes|
    ensures forall i :: 0 <= i < |passes| ==>
              waits[i] == BackoffDelay(Wrapped(Failures(passes[..i + 1]) - 1), jitters[i])
  {
    waits := [];
    var attempt: nat := 0;
    for i := 0 to |passes|
      invariant attempt == Wrapped(Failures(passes[..i]))
      invariant |waits| == i
      invariant forall j :: 0 <= j < i ==>
                  waits[j] == BackoffDelay(Wrapped(Failures(passes[..j + 1]) - 1), jitters[j])
    {
      assert passes[..i + 1][..i] == passes[..i];
      if passes[i] != ConnectError {
        attempt := 0;
      }
      WrappedStep(Failures(passes[..i + 1]) - 1);
      attempt := Wrapped(attempt + 1);
      waits := waits + [BackoffDelay(Wrapped(attempt - 1), jitters[i])];
    }
  }

  // ----- bounds -----

  lemma {:induction false} Pow2AtLeast(n: nat)
    requires n >= 6
    ensures Pow2(n) >= 64
  {
    if n > 6 {
      Pow2AtLeast(n - 1);
    } else {
      assert Pow2(6) == 2 * Pow2(5) && Pow2(5) == 2 * Pow2(4) && Pow2(4) == 2 * Pow2(3);
    }
  }

  lemma {:induction false} SmallPowers()
    ensures Pow2(0) == 1 && Pow2(1) == 2 && Pow2(2) == 4 && Pow2(3) == 8
    ensures Pow2(4) == 16 && Pow2(5) == 32 && Pow2(6) == 64
  {
    assert Pow2(3) == 2 * Pow2(2) && Pow2(4) == 2 * Pow2(3) && Pow2(5) == 2 * Pow2(4) && Pow2(6) == 2 * Pow2(5);
  }

  // The six growing steps, the plateau, and the collapse once the cast wraps.
  lemma {:induction false} BaseSteps(attempt: nat)
    requires attempt < TWO_32
    ensures attempt < 6 ==> BaseMs(attempt) == 1000 * Pow2(attempt) && BaseMs(attempt) <= 32_000
    ensures 6 <= attempt < TWO_31 ==> BaseMs(attempt) == 60_000
    ensures attempt >= TWO_31 ==> BaseMs(attempt) <= 500
  {
    SmallPowers();
    if 6 <= attempt < TWO_31 {
      Pow2AtLeast(attempt);
    }
  }

  lemma {:induction false} DivideTwice(a: nat, b: nat)
    requires b >= 1
    ensures (a / b) / 2 == a / (2 * b)
  {
    var q, r := a / b, a % b;
    var h, t := q / 2, q % 2;
    assert a == b * q + r && q == 2 * h + t;
    assert a == (2 * b) * h + (b * t + r) by {
      assert b * q == b * (2 * h) + b * t;
      assert b * (2 * h) == (2 * b) * h;
    }
    assert 0 <= b * t + r < 2 * b by { assert t == 0 || t == 1; }
    DivisionIs(a, 2 * b, h, b * t + r);
  }

  lemma {:induction false} DivisionIs(a: nat, d: nat, q: nat, r: nat)
    requires d >= 1 && a == d * q + r && r < d
    ensures a / d == q
  {
    var k := a / d - q;
    assert d * k == r - a % d;
    assert k >= 1 ==> d * k >= d;
    assert k <= -1 ==> d * k + d <= 0;
  }

  lemma {:induction false} HalvedIsDivided(ms: nat, n: nat)
    ensures Halved(ms, n) == ms / Pow2(n)
  {
    if n > 0 {
      HalvedIsDivided(ms, n - 1);
      DivideTwice(ms, Pow2(n - 1));
    }
  }

  // Once the cast has wrapped, the exponent is negative and the base delay is cut by halves.
  lemma {:induction false} WrappedBase(attempt: nat)
    requires TWO_31 <= attempt < TWO_32
    ensures BaseMs(attempt) == 1000 / Pow2(TWO_32 - attempt)
  {
    HalvedIsDivided(INITIAL_BACKOFF_MS, TWO_32 - attempt);
    BaseSteps(attempt);
  }

  // From attempt 6 on the delay stands at 60 s plus jitter, until the attempt no longer fits an i32;
  // then it drops below 1.5 s.
  lemma {:induction false} PlateauHoldsUntilWrap(attempt: nat, jitter: nat)
    requires 6 <= attempt < TWO_32 && jitter < JITTER_MS
    ensures BackoffDelay(attempt, jitter) == MAX_BACKOFF_MS + jitter <==> attempt < TWO_31
    ensures BackoffDelay(attempt, jitter) <= if attempt < TWO_31 then 60_999 else 1_499
  {
    BaseSteps(attempt);
  }

  // Jitter can never make a later attempt wait less exactly while the earlier one is below the cap.
  lemma {:induction false} JitterNeverReorders(a: nat, b: nat)
    requires a < b < TWO_31
    ensures (forall j1, j2 :: 0 <= j1 < JITTER_MS && 0 <= j2 < JITTER_MS ==> BackoffDelay(a, j1) < BackoffDelay(b, j2))
       <==> a < 6
  {
    BaseSteps(a);
    BaseSteps(b);
    SmallPowers();
    if a >= 6 {
      assert !(BackoffDelay(a, 999) < BackoffDelay(b, 0));
    }
  }

  // Whatever came before, the first failure after a successful connection waits under two seconds.
  lemma {:induction false} ConnectingResetsTheDelay(passes: seq<Pass>, jitter: nat)
    requires passes != [] && !passes[|passes| - 1].ConnectError? && jitter < JITTER_MS
    ensures INITIAL_BACKOFF_MS <= BackoffDelay(Failures(passes) - 1, jitter) < INITIAL_BACKOFF_MS + JITTER_MS
  {
    BaseSteps(0);
  }

  // ----- total wait -----

  function Sum(waits: seq<nat>): nat {
    if waits == [] then 0 else Sum(waits[..|waits| - 1]) + waits[|waits| - 1]
  }

  // The total without jitter of n failures in a row.
  function TotalBase(n: nat): nat {
    if n <= 6 then 1000 * (Pow2(n) - 1) else 63_000 + 60_000 * (n - 6)
  }

  // n failures in a row since the counter was zero: at least the base total, at most 999 ms more each.
  lemma {:induction false} TotalWait(jitters: seq<nat>, waits: seq<nat>)
    requires |waits| == |jitters| <= TWO_31 && Jitters(jitters)
    requires forall i :: 0 <= i < |waits| ==> waits[i] == BackoffDelay(i, jitters[i])
    ensures TotalBase(|waits|) <= Sum(waits) <= TotalBase(|waits|) + 999 * |waits|
  {
    if waits != [] {
      var n := |waits| - 1;
      TotalWait(jitters[..n], waits[..n]);
      BaseSteps(n);
      SmallPowers();
      assert Pow2(n + 1) == 2 * Pow2(n);
    }
  }

  // The loop itself: after a connection is lost (or at the start), n connect errors in a row.
  lemma {:induction false} OutageWait(passes: seq<Pass>, jitters: seq<nat>, waits: seq<nat>)
    requires |waits| == |jitters| == |passes| <= TWO_31 && Jitters(jitters)
    requires forall i :: 1 <= i < |passes| ==> passes[i].ConnectError?
    requires forall i :: 0 <= i < |passes| ==>
               waits[i] == BackoffDelay(Wrapped(Failures(passes[..i + 1]) - 1), jitters[i])
    ensures TotalBase(|passes|) <= Sum(waits) <= TotalBase(|passes|) + 999 * |passes|
  {
    forall i | 0 <= i < |passes| ensures waits[i] == BackoffDelay(i, jitters[i]) {
      OutageFailures(passes, i);
      assert Wrapped(i) == i;
    }
    TotalWait(jitters, waits);
  }

  lemma {:induction false} OutageFailures(passes: seq<Pass>, i: nat)
    requires i < |passes| && forall i :: 1 <= i < |passes| ==> passes[i].ConnectError?
    ensures Failures(passes[..i + 1]) == i + 1
  {
    assert passes[..i + 1][..i] == passes[..i];
    if i > 0 { OutageFailures(passes, i - 1); }
  }
}
