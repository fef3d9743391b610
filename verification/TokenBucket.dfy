/** The token bucket that prices messages, events and queries. */
module TokenBucket {

  datatype Bucket = Bucket(rate: real, burst: real, tokens: real, t: int)

  function Min(a: real, b: real): real { if a <= b then a else b }

  function Fresh(rate: real, burst: real, now: int): Bucket {
    Bucket(rate, burst, burst, now)
  }

  function Credit(rate: real, ms: int): real {
    (ms as real / 1000.0) * rate
  }

  /** Lazy refill: credit for the time since the last take, capped. */
  function Refill(b: Bucket, now: int): Bucket {
    b.(tokens := Min(b.burst, b.tokens + Credit(b.rate, now - b.t)), t := now)
  }

  predicate Affordable(b: Bucket, now: int) {
    Refill(b, now).tokens >= 1.0
  }

  function AfterTake(b: Bucket, now: int): Bucket {
    var r := Refill(b, now);
    if r.tokens < 1.0 then r else r.(tokens := r.tokens - 1.0)
  }

  /** The bucket object itself, mutated in place by every take. */
  class Meter {
    const rate: real
    const burst: real
    var tokens: real
    var t: int

    ghost function State(): Bucket
      reads this
    {
      Bucket(rate, burst, tokens, t)
    }

    constructor (rate: real, burst: real, now: int)
      ensures State() == Fresh(rate, burst, now)
    {
      this.rate, this.burst, this.tokens, this.t := rate, burst, burst, now;
    }

    method Take(now: int) returns (ok: bool)
      modifies this
      ensures ok == Affordable(old(State()), now)
      ensures State() == AfterTake(old(State()), now)
    {
      tokens := Min(burst, tokens + ((now - t) as real / 1000.0) * rate);
      t := now;
      if tokens < 1.0 {
        return false;
      }
      tokens := tokens - 1.0;
      return true;
    }
  }

  lemma CreditMonotone(r1: real, r2: real, ms: int)
    requires ms >= 0 && r1 <= r2
    ensures Credit(r1, ms) <= Credit(r2, ms)
  {
    var x := ms as real / 1000.0;
    assert x >= 0.0;
    assert x * (r2 - r1) >= 0.0;
  }

  lemma CreditAdds(rate: real, a: int, b: int)
    ensures Credit(rate, a) + Credit(rate, b) == Credit(rate, a + b)
  {
    assert (a + b) as real / 1000.0 == a as real / 1000.0 + b as real / 1000.0;
  }

  lemma CreditNonNegative(rate: real, ms: int)
    requires rate >= 0.0 && ms >= 0
    ensures Credit(rate, ms) >= 0.0
  {
    CreditMonotone(0.0, rate, ms);
  }

  /** A take pays exactly when the bucket can hold a token at all and what it held
      plus its rate times the seconds since makes up one; then one is gone. */
  lemma PaysExactly(b: Bucket, now: int)
    ensures var earned := b.tokens + (now - b.t) as real / 1000.0 * b.rate;
            var held := if earned <= b.burst then earned else b.burst;
            && (Affordable(b, now) <==> b.burst >= 1.0 && earned >= 1.0)
            && AfterTake(b, now) == b.(t := now, tokens := if held >= 1.0 then held - 1.0 else held)
  {
  }

  /** Whether every one of a series of takes pays. */
  predicate AllPay(b: Bucket, times: seq<int>)
    decreases |times|
  {
    times == [] || (Affordable(b, times[0]) && AllPay(AfterTake(b, times[0]), times[1..]))
  }

  /** A new bucket pays as many takes at once as its burst has whole tokens. */
  lemma FreshPaysItsBurst(rate: real, burst: real, now: int, n: nat)
    ensures AllPay(Fresh(rate, burst, now), seq(n, _ => now)) <==> n == 0 || n as real <= burst
  {
    PayAtOnce(Fresh(rate, burst, now), n);
  }

  lemma {:induction false} PayAtOnce(b: Bucket, n: nat)
    requires b.tokens <= b.burst
    ensures AllPay(b, seq(n, _ => b.t)) <==> n == 0 || n as real <= b.tokens
    decreases n
  {
    var now := b.t;
    if n > 0 {
      var times := seq(n, _ => now);
      assert times[1..] == seq(n - 1, _ => now);
      assert Refill(b, now) == b;
      if Affordable(b, now) {
        PayAtOnce(AfterTake(b, now), n - 1);
      }
    }
  }

  /** From `since` on, each take leaves the time for one token after the last. */
  predicate Leisurely(rate: real, since: int, times: seq<int>)
    decreases |times|
  {
    times == [] || ((times[0] - since) as real / 1000.0 * rate >= 1.0 && Leisurely(rate, times[0], times[1..]))
  }

  /** A client that takes its time is never refused, however long it goes on. */
  lemma {:induction false} SteadyPacePays(b: Bucket, times: seq<int>)
    requires b.burst >= 1.0 && b.tokens >= 0.0 && Leisurely(b.rate, b.t, times)
    ensures AllPay(b, times)
    decreases |times|
  {
    if times != [] {
      PaysExactly(b, times[0]);
      SteadyPacePays(AfterTake(b, times[0]), times[1..]);
    }
  }

  /** Refilling twice is refilling once: a take that was refused on the way
      (which only refills) never costs later credit. */
  lemma RefillPathIndependent(b: Bucket, mid: int, now: int)
    requires b.rate >= 0.0 && b.t <= mid <= now
    ensures Refill(Refill(b, mid), now) == Refill(b, now)
    ensures !Affordable(b, mid) ==> AfterTake(AfterTake(b, mid), now) == AfterTake(b, now)
  {
    CreditAdds(b.rate, mid - b.t, now - mid);
    CreditNonNegative(b.rate, now - mid);
  }

  /** A looser bucket (faster, deeper, fuller, last used at the same instant). */
  predicate Looser(a: Bucket, b: Bucket) {
    a.rate <= b.rate && a.burst <= b.burst && a.tokens <= b.tokens && a.t == b.t
  }

  lemma TakeKeepsLooser(a: Bucket, b: Bucket, now: int)
    requires Looser(a, b) && a.t <= now && Affordable(a, now)
    ensures Affordable(b, now) && Looser(AfterTake(a, now), AfterTake(b, now))
  {
    CreditMonotone(a.rate, b.rate, now - a.t);
  }

  /** `times` are the instants of the takes paid for so far: from any of them
      on, the takes plus what is left never exceed burst plus refill. */
  ghost predicate Paid(b: Bucket, times: seq<int>) {
    && b.tokens <= b.burst
    && (b.burst >= 0.0 ==> b.tokens >= 0.0)
    && (forall i :: 0 <= i < |times| ==> times[i] <= b.t)
    && (forall i :: 0 <= i < |times| ==>
         (|times| - i) as real + b.tokens <= b.burst + Credit(b.rate, b.t - times[i]))
    && Bounded(b.rate, b.burst, times)
  }

  /** Takes i..j inclusive never outnumber burst plus refill between them. */
  ghost predicate Bounded(rate: real, burst: real, times: seq<int>) {
    && (forall i, j :: 0 <= i <= j < |times| ==> times[i] <= times[j])
    && (forall i, j :: 0 <= i <= j < |times| ==>
         (j - i + 1) as real <= burst + Credit(rate, times[j] - times[i]))
  }

  lemma TakeKeepsPaid(b: Bucket, times: seq<int>, now: int)
    requires Paid(b, times) && b.rate >= 0.0 && b.t <= now && Affordable(b, now)
    ensures Paid(AfterTake(b, now), times + [now])
  {
    TakeKeepsEachPaid(b, times, now);
    var times' := times + [now];
    forall i, j | 0 <= i <= j < |times'|
      ensures (j - i + 1) as real <= b.burst + Credit(b.rate, times'[j] - times'[i])
    {
      if j == |times| {
        assert (|times'| - i) as real + AfterTake(b, now).tokens <= b.burst + Credit(b.rate, now - times'[i]);
      }
    }
  }

  lemma TakeKeepsEachPaid(b: Bucket, times: seq<int>, now: int)
    requires Paid(b, times) && b.rate >= 0.0 && b.t <= now && Affordable(b, now)
    ensures var b', times' := AfterTake(b, now), times + [now];
            && 0.0 <= b'.tokens <= b.burst - 1.0
            && forall i :: 0 <= i < |times'| ==>
                 (|times'| - i) as real + b'.tokens <= b.burst + Credit(b.rate, now - times'[i])
  {
    var b', times' := AfterTake(b, now), times + [now];
    CreditNonNegative(b.rate, now - b.t);
    forall i | 0 <= i < |times'|
      ensures (|times'| - i) as real + b'.tokens <= b.burst + Credit(b.rate, now - times'[i])
    {
      if i < |times| { CreditAdds(b.rate, b.t - times[i], now - b.t); }
    }
  }

  lemma RefillKeepsPaid(b: Bucket, times: seq<int>, now: int)
    requires Paid(b, times) && b.rate >= 0.0 && b.t <= now
    ensures Paid(Refill(b, now), times)
  {
    CreditNonNegative(b.rate, now - b.t);
    forall i | 0 <= i < |times|
      ensures (|times| - i) as real + Refill(b, now).tokens <= b.burst + Credit(b.rate, now - times[i])
    {
      CreditAdds(b.rate, b.t - times[i], now - b.t);
    }
  }

  function CountIn(times: seq<int>, lo: int, hi: int): nat {
    if times == [] then 0
    else CountIn(times[..|times| - 1], lo, hi) + if lo <= times[|times| - 1] <= hi then 1 else 0
  }

  /** In a sorted history the takes of a window are a contiguous run i..j. */
  lemma {:induction false} WindowIsRun(times: seq<int>, lo: int, hi: int) returns (i: nat, j: int)
    requires forall a, b :: 0 <= a <= b < |times| ==> times[a] <= times[b]
    ensures i <= j + 1 <= |times| && CountIn(times, lo, hi) == j - i + 1
    ensures forall k :: i <= k <= j ==> lo <= times[k] <= hi
    ensures forall k :: j < k < |times| ==> times[k] > hi || (i == j + 1 && times[k] < lo)
  {
    if times == [] {
      i, j := 0, -1;
    } else {
      var n := |times| - 1;
      i, j := WindowIsRun(times[..n], lo, hi);
      if lo <= times[n] <= hi {
        if i == j + 1 { i, j := n, n; } else { j := n; }
      }
    }
  }

  /** Over every window, the paid takes are at most burst + rate * length. */
  lemma WindowBound(rate: real, burst: real, times: seq<int>, lo: int, ms: nat)
    requires Bounded(rate, burst, times) && rate >= 0.0 && burst >= 0.0
    ensures CountIn(times, lo, lo + ms) as real <= burst + ms as real / 1000.0 * rate
    ensures CountIn(times, lo, lo + ms) as real <= burst + Credit(rate, ms)
  {
    CreditNonNegative(rate, ms);
    var i, j := WindowIsRun(times, lo, lo + ms);
    if i <= j {
      var gap := times[j] - times[i];
      CreditAdds(rate, gap, ms - gap);
      CreditNonNegative(rate, ms - gap);
    }
  }
}
