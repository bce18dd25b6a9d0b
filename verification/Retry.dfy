/** Sending with retries: how often, how long it waits in between, and what it reports.

    A duration is a signed 64-bit number of nanoseconds, so its products wrap around. */
module Retry {
  import opened PublisherConfirms

  const MILLISECOND: int := 1_000_000
  const TWO_SECONDS: int := 2_000 * MILLISECOND
  const TWO_TO_63: int := 0x8000_0000_0000_0000
  const TWO_TO_64: int := 0x1_0000_0000_0000_0000

  /** The signed 64-bit number an exact result is stored as. */
  function Wrap64(x: int): (r: int)
    ensures -TWO_TO_63 <= r < TWO_TO_63
    ensures -TWO_TO_63 <= x < TWO_TO_63 ==> r == x
  {
    (x + TWO_TO_63) % TWO_TO_64 - TWO_TO_63
  }

  function Pow2(n: nat): nat {
    if n == 0 then 1 else 2 * Pow2(n - 1)
  }

  lemma {:induction false} Pow2Monotonic(m: nat, n: nat)
    requires m <= n
    ensures 1 <= Pow2(m) <= Pow2(n)
    decreases n
  {
    if m < n {
      Pow2Monotonic(m, n - 1);
    } else if m > 0 {
      Pow2Monotonic(m - 1, m - 1);
    }
  }

  lemma Pow2Of36()
    ensures Pow2(4) == 16 && Pow2(5) == 32
    ensures Pow2(36) == 0x10_0000_0000 && Pow2(37) == 0x20_0000_0000
  {
    assert Pow2(6) == 64 && Pow2(12) == 4096 && Pow2(18) == 0x4_0000;
    assert Pow2(24) == 0x100_0000 && Pow2(30) == 0x4000_0000;
  }

  /** A power of two times 100, times a millisecond, in 64 bits. */
  function Product(power: int): int {
    Wrap64(Wrap64(power * 100) * MILLISECOND)
  }

  /** The wait after the failure of send i, as it is computed: a power of two converted from a floating-point
      number, which is exact below 2^63 and depends on the machine (`unspecified`) from there on, multiplied
      out in 64 bits and capped at two seconds. */
  function Backoff(i: nat, unspecified: int): int {
    var power := if i + 1 < 63 then Pow2(i + 1) else unspecified;
    var product := Product(power);
    if product > TWO_SECONDS then TWO_SECONDS else product
  }

  /** The wait the program promises: 200ms, 400ms, 800ms, ... capped at two seconds. */
  function Promised(i: nat): int {
    if Pow2(i + 1) * 100 * MILLISECOND > TWO_SECONDS then TWO_SECONDS else Pow2(i + 1) * 100 * MILLISECOND
  }

  lemma BackoffWithinRange(i: nat, unspecified: int)
    requires i < 36
    ensures Backoff(i, unspecified) == Promised(i)
  {
    Pow2Of36();
    Pow2Monotonic(i + 1, 36);
  }

  /** The first wait whose product overflows: it comes out negative, so there is no wait at all. */
  lemma BackoffOverflows(unspecified: int)
    ensures Backoff(36, unspecified) < 0
  {
    Pow2Of36();
  }

  /** The waits, from the 37th on, whose product wraps around to more than two seconds all the same. */
  const LUCKY: set<nat> := {37, 43, 45, 50, 51, 52, 53}

  /** Exactly up to 36 retries every wait is the promised one, whatever the machine does beyond. */
  lemma WaitsArePromised(maxRetries: nat, unspecified: int)
    ensures (forall i: nat :: i < maxRetries ==> Backoff(i, unspecified) == Promised(i)) <==> maxRetries <= 36
  {
    if maxRetries <= 36 {
      forall i: nat | i < maxRetries
        ensures Backoff(i, unspecified) == Promised(i)
      {
        BackoffWithinRange(i, unspecified);
      }
    } else {
      BackoffOverflows(unspecified);
      assert Promised(36) >= 0;
    }
  }

  /** Doubling in 64 bits. */
  function Doubled(x: int): int {
    if 2 * x >= TWO_TO_63 then 2 * x - TWO_TO_64
    else if 2 * x < -TWO_TO_63 then 2 * x + TWO_TO_64
    else 2 * x
  }

  /** Adding a multiple of 2^64 makes no difference. */
  lemma WrapIgnores(x: int, k: int)
    ensures Wrap64(x + k * TWO_TO_64) == Wrap64(x)
  {
    assert (x + TWO_TO_63 + k * TWO_TO_64) % TWO_TO_64 == (x + TWO_TO_63) % TWO_TO_64;
  }

  lemma WrapDiffers(x: int) returns (k: int)
    ensures Wrap64(x) == x + k * TWO_TO_64
  {
    k := -((x + TWO_TO_63) / TWO_TO_64);
  }

  lemma ProductIsExact(power: int)
    ensures Product(power) == Wrap64(power * 100 * MILLISECOND)
  {
    var k := WrapDiffers(power * 100);
    WrapIgnores(power * 100 * MILLISECOND, k * MILLISECOND);
  }

  lemma WrapDoubles(x: int)
    ensures Wrap64(2 * x) == Doubled(Wrap64(x))
  {
    var k := WrapDiffers(x);
    WrapIgnores(2 * x, 2 * k);
  }

  /** The product for the next power is the double of the last one. */
  lemma ProductDoubles(power: int)
    ensures Product(2 * power) == Doubled(Product(power))
  {
    ProductIsExact(power);
    ProductIsExact(2 * power);
    WrapDoubles(power * 100 * MILLISECOND);
  }

  /** The first product that overflows, doubled n times. */
  function Overflowed(n: nat): int {
    if n == 0 then -0x4143_e000_0000_0000 else Doubled(Overflowed(n - 1))
  }

  lemma {:induction false} ProductIsOverflowed(n: nat)
    ensures Product(Pow2(n + 37)) == Overflowed(n)
  {
    if n == 0 {
      Pow2Of36();
    } else {
      ProductIsOverflowed(n - 1);
      ProductDoubles(Pow2(n + 36));
    }
  }

  lemma OverflowedFirst()
    ensures Overflowed(0) == -0x4143_e000_0000_0000 && Overflowed(1) == 0x7d78_4000_0000_0000
    ensures Overflowed(2) == -0x50f_8000_0000_0000 && Overflowed(3) == -0xa1f_0000_0000_0000
    ensures Overflowed(4) == -0x143e_0000_0000_0000 && Overflowed(5) == -0x287c_0000_0000_0000
    ensures Overflowed(6) == -0x50f8_0000_0000_0000 && Overflowed(7) == 0x5e10_0000_0000_0000
    ensures Overflowed(8) == -0x43e0_0000_0000_0000 && Overflowed(9) == 0x7840_0000_0000_0000
  {
    assert Overflowed(2) == -0x50f_8000_0000_0000 && Overflowed(4) == -0x143e_0000_0000_0000;
    assert Overflowed(6) == -0x50f8_0000_0000_0000 && Overflowed(8) == -0x43e0_0000_0000_0000;
  }

  lemma OverflowedThen()
    ensures Overflowed(10) == -0xf80_0000_0000_0000 && Overflowed(11) == -0x1f00_0000_0000_0000
    ensures Overflowed(12) == -0x3e00_0000_0000_0000 && Overflowed(13) == -0x7c00_0000_0000_0000
    ensures Overflowed(14) == 0x800_0000_0000_0000 && Overflowed(15) == 0x1000_0000_0000_0000
    ensures Overflowed(16) == 0x2000_0000_0000_0000 && Overflowed(17) == 0x4000_0000_0000_0000
    ensures Overflowed(18) == -0x8000_0000_0000_0000 && Overflowed(19) == 0x0
  {
    OverflowedFirst();
    assert Overflowed(11) == -0x1f00_0000_0000_0000 && Overflowed(13) == -0x7c00_0000_0000_0000;
    assert Overflowed(15) == 0x1000_0000_0000_0000 && Overflowed(17) == 0x4000_0000_0000_0000;
  }

  lemma {:induction false} OverflowedLast(n: nat)
    requires n >= 19
    ensures Overflowed(n) == 0
  {
    if n == 19 {
      OverflowedThen();
    } else {
      OverflowedLast(n - 1);
    }
  }

  /** A product that overflows is more than two seconds by luck, or no wait. */
  lemma OverflowedSigns(n: nat)
    requires n < 26
    ensures if n + 36 in LUCKY then Overflowed(n) > TWO_SECONDS else Overflowed(n) <= 0
  {
    if n < 10 {
      OverflowedFirst();
      assert n in {0, 1, 2, 3, 4, 5, 6, 7, 8, 9};
    } else if n < 19 {
      OverflowedThen();
      assert n in {10, 11, 12, 13, 14, 15, 16, 17, 18};
    } else {
      OverflowedLast(n);
    }
  }

  /** Wait by wait, as long as the power is exact: it is the promised one before the 37th, and for the few whose
      wrapped product happens to be large. Every other one comes out zero or negative: there is no wait. */
  lemma WhenBackoffIsPromised(i: nat, unspecified: int)
    requires i < 62
    ensures Backoff(i, unspecified) == Promised(i) <==> i < 36 || i in LUCKY
    ensures Backoff(i, unspecified) == Promised(i) || Backoff(i, unspecified) <= 0
  {
    if i < 36 {
      BackoffWithinRange(i, unspecified);
    } else {
      PromisedGrows(4, i);
      ProductIsOverflowed(i - 36);
      OverflowedSigns(i - 36);
    }
  }

  /** The promise in figures. */
  lemma PromisedInFigures(i: nat)
    ensures Promised(0) == 200 * MILLISECOND && Promised(1) == 400 * MILLISECOND
    ensures Promised(2) == 800 * MILLISECOND && Promised(3) == 1600 * MILLISECOND
    ensures i >= 4 ==> Promised(i) == 2000 * MILLISECOND
  {
    Pow2Of36();
    assert Pow2(1) == 2 && Pow2(2) == 4 && Pow2(3) == 8;
    PromisedGrows(i, i);
  }

  lemma PromisedGrows(i: nat, j: nat)
    requires i <= j
    ensures 200 * MILLISECOND <= Promised(i) <= Promised(j) <= TWO_SECONDS
    ensures j >= 4 ==> Promised(j) == TWO_SECONDS
  {
    Pow2Of36();
    Pow2Monotonic(i + 1, j + 1);
    Pow2Monotonic(1, i + 1);
    assert Pow2(1) == 2;
    if j >= 4 {
      Pow2Monotonic(5, j + 1);
    }
  }

  function TotalWait(n: nat): int {
    if n == 0 then 0 else TotalWait(n - 1) + Promised(n - 1)
  }

  /** Four waits or more add up to two seconds each, less five. */
  lemma {:induction false} TotalOfWaits(n: nat)
    requires n >= 4
    ensures TotalWait(n) == (2000 * n - 5000) * MILLISECOND
  {
    if n == 4 {
      Pow2Of36();
      assert Pow2(1) == 2 && Pow2(2) == 4 && Pow2(3) == 8;
      assert TotalWait(1) == 200 * MILLISECOND && TotalWait(2) == 600 * MILLISECOND;
    } else {
      TotalOfWaits(n - 1);
      PromisedGrows(n - 1, n - 1);
    }
  }

  /** An event that cannot be encoded never will be; everything else may pass. */
  predicate IsRetriable(e: Error) { e != NotEncodable }

  /** What the rest of the loop does from send i on: the reply it ends with, and how many sends there were
      altogether. `replies(i)` is what send i returns, `ended(i)` whether the context ends the wait after it. */
  function Attempts(maxRetries: int, i: nat, last: Reply, replies: nat -> Reply, ended: nat -> bool): (Reply, nat)
    decreases maxRetries - i
  {
    if i > maxRetries then (last, i)
    else if replies(i) == Delivered then (Delivered, i + 1)
    else if !IsRetriable(replies(i).error) then (replies(i), i + 1)
    else if i < maxRetries && ended(i) then (Failed(ContextEnded), i + 1)
    else Attempts(maxRetries, i + 1, replies(i), replies, ended)
  }

  method SendWithRetry(maxRetries: int, replies: nat -> Reply, ended: nat -> bool, unspecified: int)
    returns (reply: Reply, sends: nat, waits: seq<int>)
    ensures (reply, sends) == Attempts(maxRetries, 0, Delivered, replies, ended)
    ensures |waits| == if sends == 0 then 0 else sends - 1
    ensures forall i :: 0 <= i < |waits| ==> waits[i] == Backoff(i, unspecified)
  {
    reply, sends, waits := Delivered, 0, [];
    while sends <= maxRetries
      invariant Attempts(maxRetries, 0, Delivered, replies, ended) == Attempts(maxRetries, sends, reply, replies, ended)
      invariant sends <= maxRetries + 1 || sends == 0
      invariant |waits| == if sends <= maxRetries then sends else if sends == 0 then 0 else sends - 1
      invariant forall i :: 0 <= i < |waits| ==> waits[i] == Backoff(i, unspecified)
      decreases maxRetries - sends
    {
      var i := sends;
      reply, sends := replies(i), sends + 1;
      if reply == Delivered {
        return;
      }
      if !IsRetriable(reply.error) {
        return;
      }
      if i < maxRetries {
        if ended(i) {
          reply := Failed(ContextEnded);
          return;
        }
        waits := waits + [Backoff(i, unspecified)];
      }
    }
  }

  /** The contract of the loop from send i on: every send but the last failed in a way that may pass, and the
      reply is the last send's, or the end of the context during the wait that followed it. */
  lemma {:induction false} AttemptsContract(
    maxRetries: int, i: nat, last: Reply, replies: nat -> Reply, ended: nat -> bool)
    requires i <= maxRetries
    ensures
      var (reply, sends) := Attempts(maxRetries, i, last, replies, ended);
      && i < sends <= maxRetries + 1
      && (forall j :: i <= j < sends - 1 ==> replies(j).Failed? && !replies(j).error.NotEncodable? && !ended(j))
      && (reply == Delivered <==> replies(sends - 1) == Delivered)
      && (reply == replies(sends - 1) || (reply == Failed(ContextEnded) && ended(sends - 1) && sends <= maxRetries))
      && (replies(sends - 1) == Delivered || sends == maxRetries + 1
          || replies(sends - 1).error.NotEncodable? || ended(sends - 1))
    decreases maxRetries - i
  {
    if i < maxRetries && replies(i) != Delivered && IsRetriable(replies(i).error) && !ended(i) {
      AttemptsContract(maxRetries, i + 1, replies(i), replies, ended);
    }
  }

  /** A send that failed, as it does when the broker returned the message, is followed by another one exactly if the
      event can be encoded, there are retries left and the context does not end the wait. */
  lemma WhenSentAgain(maxRetries: nat, i: nat, replies: nat -> Reply, ended: nat -> bool)
    requires i < Attempts(maxRetries, 0, Delivered, replies, ended).1
    requires replies(i).Failed?
    ensures Attempts(maxRetries, 0, Delivered, replies, ended).1 > i + 1 <==>
      !replies(i).error.NotEncodable? && i < maxRetries && !ended(i)
  {
    AttemptsContract(maxRetries, 0, Delivered, replies, ended);
  }

  /** Reporting success means that a send succeeded. */
  ghost predicate SuccessMeansSent(maxRetries: int) {
    forall replies: nat -> Reply, ended: nat -> bool ::
      var (reply, sends) := Attempts(maxRetries, 0, Delivered, replies, ended);
      reply == Delivered ==> sends > 0 && replies(sends - 1) == Delivered
  }

  /** It does exactly when the number of retries is not negative: with a negative one nothing is sent, and
      success is reported all the same. */
  lemma WhenSuccessMeansSent(maxRetries: int)
    ensures SuccessMeansSent(maxRetries) <==> maxRetries >= 0
  {
    if maxRetries >= 0 {
      forall replies: nat -> Reply, ended: nat -> bool
        ensures var (reply, sends) := Attempts(maxRetries, 0, Delivered, replies, ended);
                reply == Delivered ==> sends > 0 && replies(sends - 1) == Delivered
      {
        AttemptsContract(maxRetries, 0, Delivered, replies, ended);
      }
    } else {
      var replies: nat -> Reply := (i: nat) => Failed(Rejected);
      var ended: nat -> bool := (i: nat) => false;
      assert Attempts(maxRetries, 0, Delivered, replies, ended) == (Delivered, 0);
    }
  }
}
