/** The classifier's decision on a packet: bans first, then one milli-token
    bucket per source. */
module Throttle {
  import opened Wrappers
  import Guard
  import TokenBucket

  const TWO64: nat := 0x1_0000_0000_0000_0000

  /** 64-bit wrap-around. */
  function U64(x: int): nat {
    x % TWO64
  }

  datatype Config = Config(ratePps: nat, burstPkts: nat)

  /** A configuration as set_config leaves it, with throttling on. */
  predicate Throttled(cfg: Config) {
    cfg.ratePps > 0 && cfg.burstPkts > 0
  }

  /** A rate with no burst would drop everything; it gets one packet. */
  function SetConfig(rate: nat, burst: nat): (cfg: Config)
    ensures rate > 0 ==> Throttled(cfg)
  {
    Config(rate, if rate > 0 && burst == 0 then 1 else burst)
  }

  datatype Bucket = Bucket(tokensMilli: nat, lastNs: nat)

  function Cap(cfg: Config): nat { U64(cfg.burstPkts * 1000) }

  function ElapsedMs(b: Bucket, now: nat): nat { U64(now - b.lastNs) / 1_000_000 }

  function Refill(cfg: Config, b: Bucket, now: nat): Bucket {
    if ElapsedMs(b, now) == 0 then b
    else
      var tokens := U64(b.tokensMilli + ElapsedMs(b, now) * cfg.ratePps);
      Bucket(if tokens > Cap(cfg) then Cap(cfg) else tokens, now)
  }

  /** What becomes of a source's bucket, and whether its packet passes. */
  function Charge(cfg: Config, b: Option<Bucket>, now: nat): (Bucket, bool) {
    match b
    case None => (Bucket(if Cap(cfg) > 1000 then Cap(cfg) - 1000 else 0, now), true)
    case Some(b) =>
      var r := Refill(cfg, b, now);
      if r.tokensMilli < 1000 then (r, false) else (r.(tokensMilli := r.tokensMilli - 1000), true)
  }

  datatype Packet = NotIpv6 | Unreadable | From(src: Guard.Addr)

  datatype Counters = Counters(passed: nat, droppedBan: nat, droppedThrottle: nat, notIpv6: nat, parseFailed: nat) {
    function Sum(): nat { passed + droppedBan + droppedThrottle + notIpv6 + parseFailed }
  }

  type Buckets = map<Guard.Addr, Bucket>

  function BucketOf(buckets: Buckets, src: Guard.Addr): Option<Bucket> {
    if src in buckets then Some(buckets[src]) else None
  }

  /** One packet: what becomes of the buckets, and whether it passes. */
  function Decide(cfg: Config, buckets: Buckets, p: Packet, bans: Guard.BanMap, now: nat): (Buckets, bool) {
    if !p.From? then (buckets, true)
    else if Guard.Drops(bans, p.src, now) then (buckets, false)
    else if cfg.ratePps == 0 then (buckets, true)
    else
      var (b, pass) := Charge(cfg, BucketOf(buckets, p.src), now);
      (buckets[p.src := b], pass)
  }

  /** Every packet is counted once, under what happened to it. */
  function Tally(c: Counters, p: Packet, banned: bool, pass: bool): (c': Counters)
    ensures c'.Sum() == c.Sum() + 1
  {
    match p
    case NotIpv6 => c.(notIpv6 := c.notIpv6 + 1)
    case Unreadable => c.(parseFailed := c.parseFailed + 1)
    case From(_) =>
      if banned then c.(droppedBan := c.droppedBan + 1)
      else if pass then c.(passed := c.passed + 1)
      else c.(droppedThrottle := c.droppedThrottle + 1)
  }

  class Classifier {
    const table: Guard.BanTable
    var cfg: Config
    var buckets: Buckets
    var stats: Counters

    constructor (table: Guard.BanTable)
      ensures this.table == table && cfg == Config(0, 0) && buckets == map[] && stats == Counters(0, 0, 0, 0, 0)
    {
      this.table, cfg, buckets, stats := table, Config(0, 0), map[], Counters(0, 0, 0, 0, 0);
    }

    method Configure(rate: nat, burst: nat)
      modifies this
      ensures cfg == SetConfig(rate, burst) && unchanged(this`buckets) && unchanged(this`stats)
      ensures cfg.ratePps == rate && (burst > 0 || rate == 0 ==> cfg.burstPkts == burst)
      ensures rate > 0 && burst == 0 ==> cfg.burstPkts == 1
    {
      cfg := Config(rate, if rate > 0 && burst == 0 then 1 else burst);
    }

    /** The classifier program, on one packet. */
    method Classify(p: Packet, now: nat) returns (pass: bool)
      modifies this
      ensures cfg == old(cfg)
      ensures (buckets, pass) == Decide(cfg, old(buckets), p, table.bans, now)
      ensures stats == Tally(old(stats), p, p.From? && Guard.Drops(table.bans, p.src, now), pass)
    {
      if p.NotIpv6? {
        stats := stats.(notIpv6 := stats.notIpv6 + 1);
        return true;
      }
      if p.Unreadable? {
        stats := stats.(parseFailed := stats.parseFailed + 1);
        return true;
      }
      if p.src in table.bans {
        var ban := table.bans[p.src];
        if ban.mono == 0 || ban.mono > now {
          stats := stats.(droppedBan := stats.droppedBan + 1);
          return false;
        }
      }
      if cfg.ratePps > 0 {
        var cap := U64(cfg.burstPkts * 1000);
        if p.src !in buckets {
          buckets := buckets[p.src := Bucket(if cap > 1000 then cap - 1000 else 0, now)];
        } else {
          var b := buckets[p.src];
          var elapsedMs := U64(now - b.lastNs) / 1_000_000;
          if elapsedMs > 0 {
            var tokens := U64(b.tokensMilli + elapsedMs * cfg.ratePps);
            b := Bucket(if tokens > cap then cap else tokens, now);
          }
          if b.tokensMilli < 1000 {
            buckets := buckets[p.src := b];
            stats := stats.(droppedThrottle := stats.droppedThrottle + 1);
            return false;
          }
          buckets := buckets[p.src := b.(tokensMilli := b.tokensMilli - 1000)];
        }
      }
      stats := stats.(passed := stats.passed + 1);
      return true;
    }
  }

  // ---- One source over time ----

  /** After the packets of one source at `arrivals`: its bucket, the instants of
      the packets that passed, the credit refills have added before capping, and
      the clock when the bucket was made. */
  datatype Served = Served(b: Option<Bucket>, passed: seq<int>, creditMilli: nat, created: nat)

  /** What a refill adds before capping. */
  function Earned(cfg: Config, b: Option<Bucket>, now: nat): nat {
    if b.None? then 0 else ElapsedMs(b.value, now) * cfg.ratePps
  }

  function Serve(cfg: Config, arrivals: seq<nat>): Served {
    if arrivals == [] then Served(None, [], 0, 0)
    else
      var s, now := Serve(cfg, arrivals[..|arrivals| - 1]), arrivals[|arrivals| - 1];
      var (b, pass) := Charge(cfg, s.b, now);
      Served(Some(b), if pass then s.passed + [now] else s.passed,
             s.creditMilli + Earned(cfg, s.b, now),
             if s.b.Some? then s.created else now)
  }

  /** A full bucket plus what `ns` nanoseconds earn stays below 64 bits. */
  predicate GapFits(cfg: Config, ns: nat) {
    cfg.burstPkts * 1000 + ns / 1_000_000 * cfg.ratePps < TWO64
  }

  /** The clock runs forward and the source is never away for so long that a
      refill overflows; the bucket's clock is less than a millisecond behind
      the last packet. */
  predicate Fits(cfg: Config, arrivals: seq<nat>) {
    && GapFits(cfg, 0)
    && (forall i :: 0 <= i < |arrivals| ==> arrivals[i] < TWO64)
    && (forall i, j :: 0 <= i <= j < |arrivals| ==> arrivals[i] <= arrivals[j])
    && (forall i :: 0 < i < |arrivals| ==> GapFits(cfg, arrivals[i] - arrivals[i - 1] + 999_999))
  }

  /** What `ns` nanoseconds are worth at the configured rate, in packets times
      10^9. */
  function Worth(cfg: Config, ns: int): int {
    cfg.ratePps * ns
  }

  lemma WorthAdds(cfg: Config, a: int, b: int)
    ensures Worth(cfg, a) + Worth(cfg, b) == Worth(cfg, a + b)
  {
  }

  lemma WorthMonotone(cfg: Config, a: int, b: int)
    requires a <= b
    ensures Worth(cfg, a) <= Worth(cfg, b)
  {
    WorthAdds(cfg, a, b - a);
    WorthNonNegative(cfg, b - a);
  }

  lemma WorthNonNegative(cfg: Config, ns: nat)
    ensures Worth(cfg, ns) >= 0
  {
  }

  lemma WorthOfMs(cfg: Config, ms: int)
    ensures Worth(cfg, 1_000_000 * ms) == 1_000_000 * (ms * cfg.ratePps)
  {
  }

  lemma CreditMonotone(cfg: Config, a: nat, b: nat)
    requires a <= b
    ensures 0 <= a * cfg.ratePps <= b * cfg.ratePps
  {
  }

  /** Without wrap-around a refill adds what it says, and leaves the clock at
      most one millisecond behind. */
  lemma RefillPlain(cfg: Config, b: Bucket, now: nat)
    requires b.lastNs <= now < TWO64 && b.tokensMilli <= Cap(cfg) && GapFits(cfg, now - b.lastNs)
    ensures var r := Refill(cfg, b, now);
            var added := ElapsedMs(b, now) * cfg.ratePps;
            && r.tokensMilli == (if b.tokensMilli + added > Cap(cfg) then Cap(cfg) else b.tokensMilli + added)
            && b.lastNs <= r.lastNs <= now < r.lastNs + 1_000_000
            && 1_000_000 * added <= Worth(cfg, r.lastNs - b.lastNs) <= 2_000_000 * added
  {
    hide Worth;
    var ms := (now - b.lastNs) / 1_000_000;
    assert ElapsedMs(b, now) == ms;
    CreditMonotone(cfg, 0, ms);
    var added := ms * cfg.ratePps;
    assert U64(b.tokensMilli + added) == b.tokensMilli + added;
    WorthOfMs(cfg, 0);
    if ms > 0 {
      WorthOfMs(cfg, ms);
      WorthOfMs(cfg, 2 * ms);
      assert 2 * ms * cfg.ratePps == 2 * added;
      WorthMonotone(cfg, 1_000_000 * ms, now - b.lastNs);
      WorthMonotone(cfg, now - b.lastNs, 1_000_000 * (2 * ms));
    }
  }

  lemma ShorterGapFits(cfg: Config, a: nat, b: nat)
    requires a <= b && GapFits(cfg, b)
    ensures GapFits(cfg, a)
  {
    CreditMonotone(cfg, a / 1_000_000, b / 1_000_000);
  }

  /** k-th packet passed at passed[k]: from there on, the packets plus what is
      left in the bucket are covered by the burst and the rate. */
  ghost predicate Covered(cfg: Config, b: Bucket, passed: seq<int>) {
    && b.tokensMilli <= Cap(cfg)
    && (forall i :: 0 <= i < |passed| ==> passed[i] < b.lastNs + 1_000_000)
    && (forall i :: 0 <= i < |passed| ==>
          1_000_000 * (1000 * (|passed| - i) + b.tokensMilli)
            <= 1_000_000 * Cap(cfg) + Worth(cfg, b.lastNs - passed[i] + 999_999))
  }

  ghost predicate Spaced(cfg: Config, passed: seq<int>) {
    && (forall i, j :: 0 <= i <= j < |passed| ==> passed[i] <= passed[j])
    && (forall i, j :: 0 <= i <= j < |passed| ==>
          1_000_000_000 * (j - i + 1) <= 1_000_000 * Cap(cfg) + Worth(cfg, passed[j] - passed[i] + 999_999))
  }

  lemma RefillCovers(cfg: Config, b: Bucket, passed: seq<int>, now: nat)
    requires Covered(cfg, b, passed) && b.lastNs <= now < TWO64 && GapFits(cfg, now - b.lastNs)
    ensures Covered(cfg, Refill(cfg, b, now), passed)
  {
    hide Worth, Refill, Cap;
    RefillPlain(cfg, b, now);
    var r := Refill(cfg, b, now);
    forall i | 0 <= i < |passed|
      ensures 1_000_000 * (1000 * (|passed| - i) + r.tokensMilli)
                <= 1_000_000 * Cap(cfg) + Worth(cfg, r.lastNs - passed[i] + 999_999)
    {
      WorthAdds(cfg, b.lastNs - passed[i] + 999_999, r.lastNs - b.lastNs);
    }
  }

  lemma PassCovers(cfg: Config, b: Bucket, passed: seq<int>, now: nat)
    requires Covered(cfg, b, passed) && b.tokensMilli >= 1000 && b.lastNs <= now < b.lastNs + 1_000_000
    ensures Covered(cfg, b.(tokensMilli := b.tokensMilli - 1000), passed + [now])
  {
    hide Worth, Cap;
    WorthNonNegative(cfg, b.lastNs - now + 999_999);
  }

  lemma LastPassSpaced(cfg: Config, b: Bucket, passed: seq<int>, now: nat)
    requires Spaced(cfg, passed) && Covered(cfg, b, passed + [now]) && b.lastNs <= now
    requires forall i :: 0 <= i < |passed| ==> passed[i] <= now
    ensures Spaced(cfg, passed + [now])
  {
    hide Worth, Cap;
    var all := passed + [now];
    forall i, j | 0 <= i <= j < |all|
      ensures 1_000_000_000 * (j - i + 1) <= 1_000_000 * Cap(cfg) + Worth(cfg, all[j] - all[i] + 999_999)
    {
      if j == |passed| {
        WorthMonotone(cfg, b.lastNs - all[i] + 999_999, now - all[i] + 999_999);
      }
    }
  }

  ghost predicate ServedOk(cfg: Config, s: Served, now: nat) {
    match s.b
    case None => s.passed == [] && s.creditMilli == 0
    case Some(b) =>
      && b.lastNs <= now < b.lastNs + 1_000_000 && s.created <= b.lastNs
      && Covered(cfg, b, s.passed) && Spaced(cfg, s.passed)
      && (forall i :: 0 <= i < |s.passed| ==> s.passed[i] <= now)
      && Worth(cfg, b.lastNs - s.created) <= 2_000_000 * s.creditMilli
  }

  lemma FirstPacket(cfg: Config, now: nat)
    requires Throttled(cfg) && GapFits(cfg, 0)
    ensures Charge(cfg, None, now).1 && Earned(cfg, None, now) == 0
    ensures ServedOk(cfg, Served(Some(Charge(cfg, None, now).0), [now], 0, now), now)
  {
    assert Cap(cfg) == cfg.burstPkts * 1000 >= 1000;
    WorthNonNegative(cfg, 999_999);
    WorthOfMs(cfg, 0);
  }

  lemma {:induction false} ServeOk(cfg: Config, arrivals: seq<nat>)
    requires Throttled(cfg) && Fits(cfg, arrivals)
    ensures ServedOk(cfg, Serve(cfg, arrivals), if arrivals == [] then 0 else arrivals[|arrivals| - 1])
    ensures Serve(cfg, arrivals).b == None <==> arrivals == []
  {
    hide ServedOk, Charge, Earned, Throttled;
    if arrivals == [] {
      NothingServed(cfg);
    } else {
      var before, now := arrivals[..|arrivals| - 1], arrivals[|arrivals| - 1];
      ServeOk(cfg, before);
      if before == [] {
        assert [] + [now] == [now];
        FirstPacket(cfg, now);
      } else {
        NextPacket(cfg, Serve(cfg, before), before[|before| - 1], now);
      }
    }
  }

  lemma NothingServed(cfg: Config)
    ensures ServedOk(cfg, Served(None, [], 0, 0), 0)
  {
  }

  lemma NextPacket(cfg: Config, s: Served, before: nat, now: nat)
    requires s.b.Some? && ServedOk(cfg, s, before) && before <= now < TWO64 && GapFits(cfg, now - before + 999_999)
    ensures var (b, pass) := Charge(cfg, s.b, now);
            ServedOk(cfg, Served(Some(b), if pass then s.passed + [now] else s.passed,
                                 s.creditMilli + Earned(cfg, s.b, now), s.created), now)
  {
    hide Covered, Spaced, Worth, Cap;
    var b := s.b.value;
    var r := Refill(cfg, b, now);
    CoveredCap(cfg, b, s.passed);
    ShorterGapFits(cfg, now - b.lastNs, now - before + 999_999);
    RefillPlain(cfg, b, now);
    RefillCovers(cfg, b, s.passed, now);
    var span, more := b.lastNs - s.created, r.lastNs - b.lastNs;
    WorthAdds(cfg, span, more);
    if r.tokensMilli >= 1000 {
      PassCovers(cfg, r, s.passed, now);
      LastPassSpaced(cfg, r.(tokensMilli := r.tokensMilli - 1000), s.passed, now);
    }
  }

  lemma CoveredCap(cfg: Config, b: Bucket, passed: seq<int>)
    requires Covered(cfg, b, passed)
    ensures b.tokensMilli <= Cap(cfg)
  {
  }

  /** In any window of `ms` milliseconds a source gets through at most its burst
      plus rate * (ms + 1) / 1000 packets. */
  lemma PassedWithinRate(cfg: Config, arrivals: seq<nat>, from: int, ms: nat)
    requires Throttled(cfg) && Fits(cfg, arrivals)
    ensures 1000 * TokenBucket.CountIn(Serve(cfg, arrivals).passed, from, from + ms * 1_000_000)
              <= 1000 * cfg.burstPkts + (ms + 1) * cfg.ratePps
  {
    ServeOk(cfg, arrivals);
    var passed := Serve(cfg, arrivals).passed;
    if arrivals == [] {
      assert (ms + 1) * cfg.ratePps >= 0;
    } else {
      CapPlain(cfg);
      WindowPassed(cfg, passed, from, ms);
    }
  }

  lemma CapPlain(cfg: Config)
    requires GapFits(cfg, 0)
    ensures Cap(cfg) == cfg.burstPkts * 1000
  {
  }

  lemma WindowPassed(cfg: Config, passed: seq<int>, from: int, ms: nat)
    requires Spaced(cfg, passed) && Cap(cfg) == cfg.burstPkts * 1000
    ensures 1000 * TokenBucket.CountIn(passed, from, from + ms * 1_000_000) <= 1000 * cfg.burstPkts + (ms + 1) * cfg.ratePps
  {
    hide Worth;
    var i, j := TokenBucket.WindowIsRun(passed, from, from + ms * 1_000_000);
    WorthOfMs(cfg, ms + 1);
    WorthNonNegative(cfg, 1_000_000 * (ms + 1));
    if i <= j {
      assert passed[i] >= from && passed[j] <= from + ms * 1_000_000;
      WorthMonotone(cfg, passed[j] - passed[i] + 999_999, 1_000_000 * (ms + 1));
    }
  }

  // ---- Many sources at once ----

  /** One packet on its way in, with the ban map as it stands at that instant. */
  datatype Arrival = Arrival(p: Packet, now: nat, bans: Guard.BanMap)

  predicate Reaches(a: Arrival, src: Guard.Addr) {
    a.p == From(src) && !Guard.Drops(a.bans, src, a.now)
  }

  /** When the packets of `src` get as far as its bucket. */
  function Reaching(trace: seq<Arrival>, src: Guard.Addr): seq<nat> {
    if trace == [] then []
    else
      var last := trace[|trace| - 1];
      Reaching(trace[..|trace| - 1], src) + if Reaches(last, src) then [last.now] else []
  }

  function BucketsAfter(cfg: Config, trace: seq<Arrival>): Buckets {
    if trace == [] then map[]
    else
      var last := trace[|trace| - 1];
      Decide(cfg, BucketsAfter(cfg, trace[..|trace| - 1]), last.p, last.bans, last.now).0
  }

  /** When packets of `src` were let through. */
  function PassedFrom(cfg: Config, trace: seq<Arrival>, src: Guard.Addr): seq<int> {
    if trace == [] then []
    else
      var before, last := trace[..|trace| - 1], trace[|trace| - 1];
      PassedFrom(cfg, before, src)
        + if last.p == From(src) && Decide(cfg, BucketsAfter(cfg, before), last.p, last.bans, last.now).1 then [last.now] else []
  }

  /** However packets of other sources and bans are interleaved, a source is
      served as if it were alone with the packets its bans let through. */
  lemma {:induction false} SourcesIndependent(cfg: Config, trace: seq<Arrival>, src: Guard.Addr)
    requires cfg.ratePps > 0
    ensures var alone := Serve(cfg, Reaching(trace, src));
            BucketOf(BucketsAfter(cfg, trace), src) == alone.b && PassedFrom(cfg, trace, src) == alone.passed
  {
    hide Charge, Serve, Guard.Drops;
    if trace == [] {
      ServeNone(cfg);
    } else {
      var before, last := trace[..|trace| - 1], trace[|trace| - 1];
      SourcesIndependent(cfg, before, src);
      ServeNext(cfg, Reaching(before, src), last.now);
      if !Reaches(last, src) { assert Reaching(trace, src) == Reaching(before, src); }
    }
  }

  lemma ServeNone(cfg: Config)
    ensures Serve(cfg, []) == Served(None, [], 0, 0)
  {
  }

  lemma ServeNext(cfg: Config, arrivals: seq<nat>, now: nat)
    ensures var s, s' := Serve(cfg, arrivals), Serve(cfg, arrivals + [now]);
            var (b, pass) := Charge(cfg, s.b, now);
            s'.b == Some(b) && s'.passed == s.passed + if pass then [now] else []
  {
    assert (arrivals + [now])[..|arrivals|] == arrivals;
  }

  /** With throttling off, exactly the packets bans drop are dropped, and no
      bucket is ever made. */
  lemma {:induction false} OffPassesAll(cfg: Config, trace: seq<Arrival>, src: Guard.Addr)
    requires cfg.ratePps == 0
    ensures PassedFrom(cfg, trace, src) == Reaching(trace, src) && BucketsAfter(cfg, trace) == map[]
  {
    if trace != [] { OffPassesAll(cfg, trace[..|trace| - 1], src); }
  }

  /** What becomes of packet `i`. */
  predicate Passes(cfg: Config, trace: seq<Arrival>, i: nat)
    requires i < |trace|
  {
    Decide(cfg, BucketsAfter(cfg, trace[..i]), trace[i].p, trace[i].bans, trace[i].now).1
  }

  predicate BanDrops(a: Arrival) {
    a.p.From? && Guard.Drops(a.bans, a.p.src, a.now)
  }

  /** In any configuration: what is not IPv6, or cannot be read, always passes
      and touches no bucket; a banned source never passes and touches none; and
      any other packet touches no bucket but its source's. */
  lemma OthersUntouched(cfg: Config, trace: seq<Arrival>, i: nat)
    requires i < |trace|
    ensures var before, after := BucketsAfter(cfg, trace[..i]), BucketsAfter(cfg, trace[..i + 1]);
            && (!trace[i].p.From? ==> Passes(cfg, trace, i) && after == before)
            && (BanDrops(trace[i]) ==> !Passes(cfg, trace, i) && after == before)
            && (trace[i].p.From? ==> after - {trace[i].p.src} == before - {trace[i].p.src})
  {
    hide Charge, Guard.Drops;
    assert trace[..i + 1][..i] == trace[..i];
  }

  function StatsAfter(cfg: Config, trace: seq<Arrival>): Counters {
    if trace == [] then Counters(0, 0, 0, 0, 0)
    else
      var before, last := trace[..|trace| - 1], trace[|trace| - 1];
      Tally(StatsAfter(cfg, before), last.p, BanDrops(last),
            Decide(cfg, BucketsAfter(cfg, before), last.p, last.bans, last.now).1)
  }

  /** Those of the first `n` packets that are of one kind. */
  ghost function Which(n: nat, kind: nat -> bool): set<nat> {
    set i: nat | i < n && kind(i)
  }

  lemma OneMore(n: nat, kind: nat -> bool)
    ensures |Which(n + 1, kind)| == |Which(n, kind)| + if kind(n) then 1 else 0
  {
    assert Which(n + 1, kind) == if kind(n) then Which(n, kind) + {n} else Which(n, kind);
  }

  /** Every counter counts the packets it is named for. */
  lemma {:induction false} CountersCount(cfg: Config, trace: seq<Arrival>, n: nat)
    requires n <= |trace|
    ensures var stats := StatsAfter(cfg, trace[..n]);
            && stats.passed == |Which(n, (i: nat) => i < |trace| && trace[i].p.From? && Passes(cfg, trace, i))|
            && stats.droppedBan == |Which(n, (i: nat) => i < |trace| && BanDrops(trace[i]))|
            && stats.droppedThrottle
                 == |Which(n, (i: nat) => i < |trace| && trace[i].p.From? && !BanDrops(trace[i]) && !Passes(cfg, trace, i))|
            && stats.notIpv6 == |Which(n, (i: nat) => i < |trace| && trace[i].p.NotIpv6?)|
            && stats.parseFailed == |Which(n, (i: nat) => i < |trace| && trace[i].p.Unreadable?)|
  {
    hide Decide, Guard.Drops, Which;
    var let: nat -> bool := (i: nat) => i < |trace| && trace[i].p.From? && Passes(cfg, trace, i);
    var banned: nat -> bool := (i: nat) => i < |trace| && BanDrops(trace[i]);
    var over: nat -> bool := (i: nat) => i < |trace| && trace[i].p.From? && !BanDrops(trace[i]) && !Passes(cfg, trace, i);
    var other: nat -> bool := (i: nat) => i < |trace| && trace[i].p.NotIpv6?;
    var unread: nat -> bool := (i: nat) => i < |trace| && trace[i].p.Unreadable?;
    if n == 0 {
      NoneYet(let);
      NoneYet(banned);
      NoneYet(over);
      NoneYet(other);
      NoneYet(unread);
    } else {
      CountersCount(cfg, trace, n - 1);
      assert trace[..n][..n - 1] == trace[..n - 1];
      if BanDrops(trace[n - 1]) { BannedNeverPass(cfg, trace, n - 1); }
      OneMore(n - 1, let);
      OneMore(n - 1, banned);
      OneMore(n - 1, over);
      OneMore(n - 1, other);
      OneMore(n - 1, unread);
    }
  }

  lemma NoneYet(kind: nat -> bool)
    ensures |Which(0, kind)| == 0
  {
    assert Which(0, kind) == {};
  }

  lemma BannedNeverPass(cfg: Config, trace: seq<Arrival>, i: nat)
    requires i < |trace| && BanDrops(trace[i])
    ensures !Passes(cfg, trace, i)
  {
  }

  /** In any traffic, any window of `ms` milliseconds lets through at most the
      burst plus rate * (ms + 1) / 1000 packets of one source. */
  lemma TrafficWithinRate(cfg: Config, trace: seq<Arrival>, src: Guard.Addr, from: int, ms: nat)
    requires Throttled(cfg) && Fits(cfg, Reaching(trace, src))
    ensures 1000 * TokenBucket.CountIn(PassedFrom(cfg, trace, src), from, from + ms * 1_000_000)
              <= 1000 * cfg.burstPkts + (ms + 1) * cfg.ratePps
  {
    SourcesIndependent(cfg, trace, src);
    PassedWithinRate(cfg, Reaching(trace, src), from, ms);
  }

  /** And a source is never starved: before capping, refills have added at least
      half of what its rate is worth over the time they have taken off the
      clock since the bucket was made. */
  lemma CreditAtLeastHalf(cfg: Config, arrivals: seq<nat>)
    requires Throttled(cfg) && Fits(cfg, arrivals) && arrivals != []
    ensures var s := Serve(cfg, arrivals);
            && s.b.Some? && s.created <= s.b.value.lastNs <= arrivals[|arrivals| - 1] < s.b.value.lastNs + 1_000_000
            && Worth(cfg, s.b.value.lastNs - s.created) <= 2_000_000 * s.creditMilli
  {
    ServeOk(cfg, arrivals);
  }

  /** No refill so far was cut off at the cap. */
  predicate NeverFull(cfg: Config, arrivals: seq<nat>) {
    arrivals == [] ||
      var before, now := arrivals[..|arrivals| - 1], arrivals[|arrivals| - 1];
      var b := Serve(cfg, before).b;
      NeverFull(cfg, before) && (b.Some? ==> b.value.tokensMilli + Earned(cfg, b, now) <= Cap(cfg))
  }

  /** Then nothing is lost: burst and credit are spent on packets or still in
      the bucket. */
  lemma {:induction false} NothingSpilled(cfg: Config, arrivals: seq<nat>)
    requires Throttled(cfg) && Fits(cfg, arrivals) && NeverFull(cfg, arrivals)
    ensures var s := Serve(cfg, arrivals);
            s.b.Some? ==> s.b.value.tokensMilli + 1000 * |s.passed| == 1000 * cfg.burstPkts + s.creditMilli
  {
    hide Cap, Refill;
    if arrivals != [] {
      var before, now := arrivals[..|arrivals| - 1], arrivals[|arrivals| - 1];
      NothingSpilled(cfg, before);
      CapPlain(cfg);
      NextRefill(cfg, before, now);
    }
  }

  lemma NextRefill(cfg: Config, before: seq<nat>, now: nat)
    requires Throttled(cfg) && Fits(cfg, before) && now < TWO64
    requires before != [] ==> before[|before| - 1] <= now && GapFits(cfg, now - before[|before| - 1] + 999_999)
    ensures var b := Serve(cfg, before).b;
            b.Some? && b.value.tokensMilli + Earned(cfg, b, now) <= Cap(cfg) ==>
              Refill(cfg, b.value, now).tokensMilli == b.value.tokensMilli + Earned(cfg, b, now)
  {
    hide Covered, Spaced, Worth, Cap;
    ServeOk(cfg, before);
    var s := Serve(cfg, before);
    if s.b.Some? {
      CoveredCap(cfg, s.b.value, s.passed);
      ShorterGapFits(cfg, now - s.b.value.lastNs, now - before[|before| - 1] + 999_999);
      RefillPlain(cfg, s.b.value, now);
    }
  }

  /** So a source that sends fast enough to keep its bucket from filling up gets
      its burst and at least half its rate through, less what is left over. */
  lemma BusySourceGetsHalf(cfg: Config, arrivals: seq<nat>)
    requires Throttled(cfg) && Fits(cfg, arrivals) && NeverFull(cfg, arrivals) && arrivals != []
    ensures var s := Serve(cfg, arrivals);
            && s.b.Some? && arrivals[|arrivals| - 1] < s.b.value.lastNs + 1_000_000
            && Worth(cfg, s.b.value.lastNs - s.created)
                 <= 2_000_000 * (1000 * |s.passed| + s.b.value.tokensMilli - 1000 * cfg.burstPkts)
  {
    CreditAtLeastHalf(cfg, arrivals);
    NothingSpilled(cfg, arrivals);
  }

  /** While nothing is spilled, a packet passes exactly when the burst and the
      credit so far cover one packet more than have passed. */
  lemma PassesIffCovered(cfg: Config, arrivals: seq<nat>)
    requires Throttled(cfg) && Fits(cfg, arrivals) && NeverFull(cfg, arrivals) && |arrivals| >= 2
    ensures var before, s := Serve(cfg, arrivals[..|arrivals| - 1]), Serve(cfg, arrivals);
            |s.passed| == |before.passed| +
              if 1000 * (|before.passed| + 1) <= 1000 * cfg.burstPkts + s.creditMilli then 1 else 0
  {
    hide Cap, Refill;
    var before, now := arrivals[..|arrivals| - 1], arrivals[|arrivals| - 1];
    NothingSpilled(cfg, before);
    NextRefill(cfg, before, now);
  }

  /** A refill that reaches 2^64 starts again from nothing. */
  lemma RefillWraps(cfg: Config, b: Bucket, now: nat)
    requires b.lastNs + 1_000_000 <= now < 0x1_0000_0000_0000_0000
    requires b.tokensMilli + (now - b.lastNs) / 1_000_000 * cfg.ratePps == 0x1_0000_0000_0000_0000
    ensures Refill(cfg, b, now) == Bucket(0, now)
  {
    hide Cap;
    var ms := (now - b.lastNs) / 1_000_000;
    assert ElapsedMs(b, now) == ms >= 1;
    var added := ms * cfg.ratePps;
    assert U64(b.tokensMilli + added) == 0;
  }

  /** A refill accounts for all the time it takes off the clock exactly when
      that time is a whole number of milliseconds, or none is taken. */
  lemma RemainderKeptIff(cfg: Config, b: Bucket, now: nat)
    requires b.lastNs <= now < TWO64
    ensures ElapsedMs(b, now) * 1_000_000 == Refill(cfg, b, now).lastNs - b.lastNs
       <==> (now - b.lastNs) % 1_000_000 == 0 || now - b.lastNs < 1_000_000
  {
  }

  /** At 100 packets a second, a source whose packets come 1.9 ms apart is
      credited one millisecond for each gap: 10 ms of credit over 19 ms. */
  lemma SubMillisecondTimeIsLost()
    ensures var cfg := SetConfig(100, 10);
            var arrivals: seq<nat> := seq(11, i => 1_900_000 * i);
            Serve(cfg, arrivals).creditMilli == 10 * cfg.ratePps
              && Serve(cfg, arrivals).b.value.lastNs == 19 * 1_000_000
  {
    var cfg := SetConfig(100, 10);
    EvenGaps(cfg, 11);
  }

  lemma {:induction false} EvenGaps(cfg: Config, n: nat)
    requires 0 < n <= 11 && cfg == SetConfig(100, 10)
    ensures var arrivals: seq<nat> := seq(n, i => 1_900_000 * i);
            var s := Serve(cfg, arrivals);
            && s.b.Some? && s.b.value.lastNs == 1_900_000 * (n - 1)
            && s.creditMilli == (n - 1) * 100
  {
    var arrivals: seq<nat> := seq(n, i => 1_900_000 * i);
    var fewer: seq<nat> := seq(n - 1, i => 1_900_000 * i);
    assert arrivals[..n - 1] == fewer;
    if n > 1 {
      EvenGaps(cfg, n - 1);
      assert U64(1_900_000) == 1_900_000;
    }
  }
}
