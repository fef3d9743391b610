/** What happens at accept: the ban list first, then a fixed-window connection
    counter per listener and source. */
module Admission {
  import BanCache
  import BanFile
  import BanSpec
  import Decimal

  /** ban_file ("" = off), conn_rate (0 = off) and conn_window in seconds (0 =
      one endless window). */
  datatype Policy = Policy(banFile: string, rate: int, window: nat)

  function WindowOf(p: Policy, nowMs: nat): nat {
    if p.window == 0 then 0 else nowMs / 1000 / p.window
  }

  /** A window is `window` seconds long, and they follow one another from the
      epoch of the clock. */
  lemma WindowSpans(p: Policy, nowMs: nat)
    requires p.window > 0
    ensures WindowOf(p, nowMs) * (1000 * p.window) <= nowMs < (WindowOf(p, nowMs) + 1) * (1000 * p.window)
  {
    var s, w := nowMs / 1000, p.window;
    var q := s / w;
    assert q * w <= s < q * w + w;
    assert q * (1000 * w) == 1000 * (q * w) && (q + 1) * (1000 * w) == 1000 * (q * w + w);
  }

  /** The key of a counter in the dictionary every listener shares. */
  function Key(port: string, ip: string, window: nat): string {
    port + ":" + ip + ":" + Decimal.Text(window)
  }

  predicate NoColon(s: string) { forall i :: 0 <= i < |s| ==> s[i] != ':' }

  /** Keys never collide, although addresses contain colons themselves. */
  lemma KeysDistinct(p1: string, ip1: string, w1: nat, p2: string, ip2: string, w2: nat)
    requires NoColon(p1) && NoColon(p2) && Key(p1, ip1, w1) == Key(p2, ip2, w2)
    ensures p1 == p2 && ip1 == ip2 && w1 == w2
  {
    hide NoColon;
    DecimalHasNoColon(w1);
    DecimalHasNoColon(w2);
    SplitAtLast(p1 + ":" + ip1, Decimal.Text(w1), p2 + ":" + ip2, Decimal.Text(w2));
    SplitAtFirst(p1, ip1, p2, ip2);
    Decimal.ValueOfText(w1);
    Decimal.ValueOfText(w2);
  }

  lemma DecimalHasNoColon(n: nat)
    ensures NoColon(Decimal.Text(n))
  {
    assert forall i :: 0 <= i < |Decimal.Text(n)| ==> Decimal.IsDigit(Decimal.Text(n)[i]);
  }

  lemma SplitAtFirst(a: string, x: string, b: string, y: string)
    requires NoColon(a) && NoColon(b) && a + ":" + x == b + ":" + y
    ensures a == b && x == y
  {
    var k := a + ":" + x;
    assert k[|a|] == ':' && k[|b|] == ':';
    assert forall i :: 0 <= i < |a| ==> k[i] == a[i];
    assert forall i :: 0 <= i < |b| ==> k[i] == b[i];
    assert k[..|a|] == a && k[..|b|] == b && k[|a| + 1..] == x && k[|b| + 1..] == y;
  }

  lemma SplitAtLast(x: string, a: string, y: string, b: string)
    requires NoColon(a) && NoColon(b) && x + ":" + a == y + ":" + b
    ensures x == y && a == b
  {
    var k := x + ":" + a;
    assert k[|x|] == ':' && k[|y|] == ':';
    assert forall i :: |x| < i < |k| ==> k[i] == a[i - |x| - 1];
    assert forall i :: |y| < i < |k| ==> k[i] == b[i - |y| - 1];
    assert k[..|x|] == x && k[..|y|] == y && k[|x| + 1..] == a && k[|y| + 1..] == b;
  }

  const NO_BAN_FILE: string := "__shield_warn_nobanfile"
  const BAN_LOAD: string := "__shield_warn_banload"

  /** The same dictionary remembers which warnings have been given. */
  function WarningKey(warning: string, port: string): string {
    warning + ":" + port
  }

  /** A warning is never mistaken for a counter. */
  lemma WarningsAreNoCounters(warning: string, p1: string, p2: string, ip: string, w: nat)
    requires NoColon(warning) && NoColon(p1)
    ensures WarningKey(warning, p1) != Key(p2, ip, w)
  {
    var k := WarningKey(warning, p1);
    assert forall i :: 0 <= i < |warning| ==> k[i] == warning[i];
    assert forall i :: |warning| < i < |k| ==> k[i] == p1[i - |warning| - 1];
    var counter := Key(p2, ip, w);
    assert counter[|p2|] == ':' && counter[|p2| + 1 + |ip|] == ':';
  }

  /** One connection attempt, and the banlist on disk at that instant. */
  datatype Attempt = Attempt(port: string, ip: string, nowMs: nat, disk: BanCache.Disk)

  type Dict = map<string, nat>

  function Count(d: Dict, key: string): nat {
    if key in d then d[key] else 0
  }

  /** dict.add: a key already there is left alone. */
  function AddOnce(d: Dict, key: string): Dict {
    if key in d then d else d[key := 1]
  }

  /** What the attempt leaves in the dictionary before it is counted. */
  function Warned(p: Policy, d: Dict, a: Attempt): Dict {
    if p.banFile == "" then AddOnce(d, WarningKey(NO_BAN_FILE, a.port))
    else if a.disk.Missing? then AddOnce(d, WarningKey(BAN_LOAD, a.port))
    else d
  }

  function KeyOf(policy: string -> Policy, a: Attempt): string {
    Key(a.port, a.ip, WindowOf(policy(a.port), a.nowMs))
  }

  /** The dictionary afterwards; a banned source does not reach the counter. */
  function DictAfter(policy: string -> Policy, d: Dict, a: Attempt, banned: bool): Dict {
    var d', key := Warned(policy(a.port), d, a), KeyOf(policy, a);
    if banned || policy(a.port).rate == 0 then d' else d'[key := Count(d', key) + 1]
  }

  predicate Allowed(policy: string -> Policy, d: Dict, a: Attempt, banned: bool) {
    !banned
    && (policy(a.port).rate == 0
        || Count(Warned(policy(a.port), d, a), KeyOf(policy, a)) + 1 <= policy(a.port).rate)
  }

  /** What a worker whose cache is `c` answers about the source. */
  predicate TurnedAway(p: Policy, c: BanCache.Cache, a: Attempt) {
    p.banFile != "" && BanCache.Cuts(BanCache.Load(c, p.banFile, a.disk).bans, a.ip, a.nowMs)
  }

  /** One dictionary for all workers; each brings its own view of the banlist. */
  class Gate {
    const policy: string -> Policy
    var dict: Dict

    constructor (policy: string -> Policy, dict: Dict)
      ensures this.policy == policy && this.dict == dict
    {
      this.policy, this.dict := policy, dict;
    }

    method Incr(key: string) returns (n: nat)
      modifies this
      ensures n == Count(old(dict), key) + 1 && dict == old(dict)[key := n]
    {
      n := (if key in dict then dict[key] else 0) + 1;
      dict := dict[key := n];
    }

    method WarnPeriodically(key: string) returns (first: bool)
      modifies this
      ensures first == (key !in old(dict)) && dict == AddOnce(old(dict), key)
    {
      first := key !in dict;
      if first { dict := dict[key := 1]; }
    }

    method ConnRateExceeded(port: string, ip: string, nowMs: nat) returns (over: bool)
      modifies this
      ensures policy(port).rate == 0 ==> !over && dict == old(dict)
      ensures policy(port).rate != 0 ==>
                var key := Key(port, ip, WindowOf(policy(port), nowMs));
                && dict == old(dict)[key := Count(old(dict), key) + 1]
                && over == (Count(old(dict), key) + 1 > policy(port).rate)
    {
      if policy(port).rate == 0 { return false; }
      var window := if policy(port).window == 0 then 0 else nowMs / 1000 / policy(port).window;
      var n := Incr(port + ":" + ip + ":" + Decimal.Text(window));
      return n > policy(port).rate;
    }

    method Access(reader: BanCache.Reader, a: Attempt) returns (allow: bool)
      modifies this, reader
      ensures var banned := TurnedAway(policy(a.port), old(reader.State()), a);
              && allow == Allowed(policy, old(dict), a, banned)
              && dict == DictAfter(policy, old(dict), a, banned)
      ensures var path := policy(a.port).banFile;
              reader.State() == if path == "" then old(reader.State()) else BanCache.Load(old(reader.State()), path, a.disk)
    {
      hide Key, WindowOf, BanCache.Cuts;
      if policy(a.port).banFile == "" {
        var first := WarnPeriodically(NO_BAN_FILE + ":" + a.port);
      } else {
        var banned := reader.IsBanned(a.ip, policy(a.port).banFile, a.disk, a.nowMs);
        if reader.loadFailed {
          var first := WarnPeriodically(BAN_LOAD + ":" + a.port);
        }
        if banned { return false; }
      }
      var over := ConnRateExceeded(a.port, a.ip, a.nowMs);
      return !over;
    }
  }

  /** What an uncached look at the banlist says about the source. */
  predicate Banned(policy: string -> Policy, a: Attempt) {
    policy(a.port).banFile != "" && BanCache.FreshAnswer(a.disk, a.ip, a.nowMs)
  }

  /** Whatever a worker has looked at before, it turns away the same sources. */
  lemma WorkersAgree(content: (string, int, nat) -> seq<BanCache.Line>, looks: seq<BanCache.Look>, policy: string -> Policy, a: Attempt)
    requires forall i :: 0 <= i < |looks| ==> BanCache.Determined(content, looks[i])
    requires BanCache.Determined(content, BanCache.Look(policy(a.port).banFile, a.disk))
    ensures TurnedAway(policy(a.port), BanCache.After(looks), a) == Banned(policy, a)
  {
    hide BanCache.Cuts;
    BanCache.CachedAnswerIsFresh(content, looks, BanCache.Look(policy(a.port).banFile, a.disk), a.ip, a.nowMs);
  }

  /** End to end at accept: with the banlist as the ban commands have left it, a
      worker turns a source away, uncounted, exactly when those commands have it
      banned at this second; anyone else is let in unless over the rate. */
  lemma AccessEnforcesTheBans(content: (string, int, nat) -> seq<BanCache.Line>, looks: seq<BanCache.Look>,
                              s: BanFile.System, steps: seq<BanFile.Step>, mtime: int, size: nat,
                              policy: string -> Policy, d: Dict, a: Attempt)
    requires forall i :: 0 <= i < |looks| ==> BanCache.Determined(content, looks[i])
    requires BanFile.Init(s) && BanFile.Legal(s, steps) && a.nowMs / 1000 == BanFile.Exec(s, steps).clock
    requires policy(a.port).banFile != ""
    requires var file := BanFile.Exec(s, steps).file;
             && a.disk == BanCache.DiskOf(file, mtime, size)
             && (file.Some? ==> content(policy(a.port).banFile, mtime, size) == BanCache.Written(file))
    ensures var turned := TurnedAway(policy(a.port), BanCache.After(looks), a);
            && turned == BanSpec.Banned(BanFile.Bans(s, steps), a.ip, a.nowMs / 1000)
            && (turned ==> !Allowed(policy, d, a, turned) && DictAfter(policy, d, a, turned) == d)
            && (!turned ==>
                 var rate := policy(a.port).rate;
                 Allowed(policy, d, a, turned) == (rate == 0 || Count(Warned(policy(a.port), d, a), KeyOf(policy, a)) < rate))
  {
    hide BanFile.Exec, BanFile.Legal, BanFile.Bans, BanCache.After, Key, WindowOf;
    BanCache.WorkerEnforcesTheBans(content, looks, s, steps, policy(a.port).banFile, mtime, size, a.ip, a.nowMs);
  }

  /** A dictionary with no counter in it yet. */
  ghost predicate NoCounters(d: Dict) {
    forall port, ip, w: nat :: NoColon(port) ==> Key(port, ip, w) !in d
  }

  function DictOf(policy: string -> Policy, first: Dict, history: seq<Attempt>): Dict {
    if history == [] then first
    else
      var last := history[|history| - 1];
      DictAfter(policy, DictOf(policy, first, history[..|history| - 1]), last, Banned(policy, last))
  }

  /** One source at one listener, in the windows lo..hi. */
  predicate Matches(policy: string -> Policy, a: Attempt, port: string, ip: string, lo: int, hi: int) {
    a.port == port && a.ip == ip && lo <= WindowOf(policy(port), a.nowMs) <= hi
  }

  /** Attempts of that source which were not refused as banned. */
  function Tries(policy: string -> Policy, history: seq<Attempt>, port: string, ip: string, lo: int, hi: int): nat {
    if history == [] then 0
    else
      var last := history[|history| - 1];
      Tries(policy, history[..|history| - 1], port, ip, lo, hi)
        + if Matches(policy, last, port, ip, lo, hi) && !Banned(policy, last) then 1 else 0
  }

  /** Connections of that source which were let in. */
  function LetIn(policy: string -> Policy, first: Dict, history: seq<Attempt>, port: string, ip: string, lo: int, hi: int): nat {
    if history == [] then 0
    else
      var before, last := history[..|history| - 1], history[|history| - 1];
      LetIn(policy, first, before, port, ip, lo, hi)
        + if Matches(policy, last, port, ip, lo, hi)
             && Allowed(policy, DictOf(policy, first, before), last, Banned(policy, last)) then 1 else 0
  }

  predicate Ports(history: seq<Attempt>) {
    forall i :: 0 <= i < |history| ==> NoColon(history[i].port)
  }

  lemma WarnedCount(p: Policy, d: Dict, a: Attempt, port: string, ip: string, w: nat)
    requires NoColon(a.port)
    ensures Count(Warned(p, d, a), Key(port, ip, w)) == Count(d, Key(port, ip, w))
  {
    hide Key, WarningKey;
    WarningsAreNoCounters(NO_BAN_FILE, a.port, port, ip, w);
    WarningsAreNoCounters(BAN_LOAD, a.port, port, ip, w);
  }

  /** A counter counts its own source at its own listener, whatever else the
      shared dictionary holds: other counters, warnings, anything there before. */
  lemma {:induction false} CounterIsTries(policy: string -> Policy, first: Dict, history: seq<Attempt>,
                                          port: string, ip: string, w: nat)
    requires NoCounters(first) && Ports(history) && NoColon(port) && policy(port).rate != 0
    ensures Count(DictOf(policy, first, history), Key(port, ip, w)) == Tries(policy, history, port, ip, w, w)
  {
    hide Key, WindowOf, Warned, Banned;
    if history != [] {
      var before, last := history[..|history| - 1], history[|history| - 1];
      CounterIsTries(policy, first, before, port, ip, w);
      WarnedCount(policy(last.port), DictOf(policy, first, before), last, port, ip, w);
      if KeyOf(policy, last) == Key(port, ip, w) {
        KeysDistinct(last.port, last.ip, WindowOf(policy(last.port), last.nowMs), port, ip, w);
      }
    }
  }

  function Min(a: int, b: int): int { if a <= b then a else b }

  /** Within one window exactly the first `rate` attempts get in. */
  lemma {:induction false} WindowLetsInFirst(policy: string -> Policy, first: Dict, history: seq<Attempt>,
                                             port: string, ip: string, w: nat)
    requires NoCounters(first) && Ports(history) && NoColon(port) && policy(port).rate > 0
    ensures LetIn(policy, first, history, port, ip, w, w) == Min(Tries(policy, history, port, ip, w, w), policy(port).rate)
  {
    hide Key, WindowOf, Warned, Banned, DictOf, NoCounters;
    if history != [] {
      var before, last := history[..|history| - 1], history[|history| - 1];
      WindowLetsInFirst(policy, first, before, port, ip, w);
      CounterIsTries(policy, first, before, port, ip, w);
      WarnedCount(policy(last.port), DictOf(policy, first, before), last, port, ip, w);
    }
  }

  lemma {:induction false} LetInSplits(policy: string -> Policy, first: Dict, history: seq<Attempt>,
                                       port: string, ip: string, lo: int, mid: int, hi: int)
    requires lo <= mid + 1 && mid <= hi
    ensures LetIn(policy, first, history, port, ip, lo, hi)
         == LetIn(policy, first, history, port, ip, lo, mid) + LetIn(policy, first, history, port, ip, mid + 1, hi)
  {
    hide Allowed, DictOf, Banned, WindowOf;
    if history != [] { LetInSplits(policy, first, history[..|history| - 1], port, ip, lo, mid, hi); }
  }

  /** Over any stretch of windows, at most `rate` connections for each. */
  lemma {:induction false} LetInBounded(policy: string -> Policy, first: Dict, history: seq<Attempt>,
                                        port: string, ip: string, lo: nat, hi: int)
    requires NoCounters(first) && Ports(history) && NoColon(port) && policy(port).rate > 0 && lo <= hi + 1
    ensures LetIn(policy, first, history, port, ip, lo, hi) <= policy(port).rate * (hi - lo + 1)
    decreases hi - lo
  {
    hide LetIn, Tries, NoCounters, Ports, NoColon;
    if lo > hi {
      NoneLetIn(policy, first, history, port, ip, lo, hi);
    } else {
      LetInSplits(policy, first, history, port, ip, lo, hi - 1, hi);
      LetInBounded(policy, first, history, port, ip, lo, hi - 1);
      WindowLetsInFirst(policy, first, history, port, ip, hi);
      assert policy(port).rate * (hi - lo + 1) == policy(port).rate * (hi - lo) + policy(port).rate;
    }
  }

  lemma {:induction false} NoneLetIn(policy: string -> Policy, first: Dict, history: seq<Attempt>,
                                     port: string, ip: string, lo: int, hi: int)
    requires lo > hi
    ensures LetIn(policy, first, history, port, ip, lo, hi) == 0
  {
    hide Allowed, DictOf, Banned, WindowOf;
    if history != [] { NoneLetIn(policy, first, history[..|history| - 1], port, ip, lo, hi); }
  }

  /** So between two instants up to a window apart a source gets in at most twice
      its rate, however the window boundary falls. */
  lemma AtMostTwiceTheRate(policy: string -> Policy, first: Dict, history: seq<Attempt>,
                           port: string, ip: string, fromMs: nat, toMs: nat)
    requires NoCounters(first) && Ports(history) && NoColon(port) && policy(port).rate > 0 && policy(port).window > 0
    requires fromMs <= toMs <= fromMs + 1000 * policy(port).window
    ensures LetIn(policy, first, history, port, ip, WindowOf(policy(port), fromMs), WindowOf(policy(port), toMs))
              <= 2 * policy(port).rate
  {
    hide LetIn, WindowOf, Ports, NoColon, NoCounters;
    var lo, hi := WindowOf(policy(port), fromMs), WindowOf(policy(port), toMs);
    AtMostNextWindow(policy(port), fromMs, toMs);
    LetInBounded(policy, first, history, port, ip, lo, hi);
    assert hi == lo || hi == lo + 1;
  }

  /** Connections of that source let in at instants `fromMs` to `toMs`. */
  function LetInBetween(policy: string -> Policy, first: Dict, history: seq<Attempt>,
                        port: string, ip: string, fromMs: nat, toMs: nat): nat {
    if history == [] then 0
    else
      var before, last := history[..|history| - 1], history[|history| - 1];
      LetInBetween(policy, first, before, port, ip, fromMs, toMs)
        + if last.port == port && last.ip == ip && fromMs <= last.nowMs <= toMs
             && Allowed(policy, DictOf(policy, first, before), last, Banned(policy, last)) then 1 else 0
  }

  lemma WindowsInOrder(p: Policy, a: nat, b: nat)
    requires a <= b
    ensures WindowOf(p, a) <= WindowOf(p, b)
  {
    if p.window > 0 {
      WindowSpans(p, a);
      WindowSpans(p, b);
      Cancel(1000 * p.window, WindowOf(p, a), WindowOf(p, b) + 1);
    }
  }

  lemma {:induction false} BetweenWithin(policy: string -> Policy, first: Dict, history: seq<Attempt>,
                                         port: string, ip: string, fromMs: nat, toMs: nat)
    ensures LetInBetween(policy, first, history, port, ip, fromMs, toMs)
         <= LetIn(policy, first, history, port, ip, WindowOf(policy(port), fromMs), WindowOf(policy(port), toMs))
  {
    hide Allowed, DictOf, Banned, WindowOf;
    if history != [] {
      var last := history[|history| - 1];
      BetweenWithin(policy, first, history[..|history| - 1], port, ip, fromMs, toMs);
      if fromMs <= last.nowMs <= toMs {
        WindowsInOrder(policy(port), fromMs, last.nowMs);
        WindowsInOrder(policy(port), last.nowMs, toMs);
      }
    }
  }

  /** In so many milliseconds: any window's length of time lets a source in at
      most twice its rate. */
  lemma AtMostTwiceBetween(policy: string -> Policy, first: Dict, history: seq<Attempt>,
                           port: string, ip: string, fromMs: nat, toMs: nat)
    requires NoCounters(first) && Ports(history) && NoColon(port) && policy(port).rate > 0 && policy(port).window > 0
    requires fromMs <= toMs <= fromMs + 1000 * policy(port).window
    ensures LetInBetween(policy, first, history, port, ip, fromMs, toMs) <= 2 * policy(port).rate
  {
    hide LetIn, LetInBetween, WindowOf, Ports, NoColon, NoCounters;
    BetweenWithin(policy, first, history, port, ip, fromMs, toMs);
    AtMostTwiceTheRate(policy, first, history, port, ip, fromMs, toMs);
  }

  lemma {:induction false} NoTriesBefore(policy: string -> Policy, history: seq<Attempt>, port: string, ip: string, w: int)
    requires forall i :: 0 <= i < |history| && history[i].port == port && history[i].ip == ip ==>
               WindowOf(policy(port), history[i].nowMs) < w
    ensures Tries(policy, history, port, ip, w, w) == 0
  {
    hide WindowOf, Banned;
    if history != [] {
      var before := history[..|history| - 1];
      assert forall i :: 0 <= i < |before| ==> before[i] == history[i];
      NoTriesBefore(policy, before, port, ip, w);
    }
  }

  /** A source that has used up its rate gets in again once the next multiple of
      the window's length has passed: if it has not tried since then and is not
      banned, it is let in. */
  lemma NextWindowLetsIn(policy: string -> Policy, first: Dict, history: seq<Attempt>, a: Attempt, m: nat)
    requires NoCounters(first) && Ports(history) && NoColon(a.port)
    requires policy(a.port).rate > 0 && policy(a.port).window > 0 && !Banned(policy, a)
    requires m * (1000 * policy(a.port).window) <= a.nowMs
    requires forall i :: 0 <= i < |history| && history[i].port == a.port && history[i].ip == a.ip ==>
               history[i].nowMs < m * (1000 * policy(a.port).window)
    ensures Allowed(policy, DictOf(policy, first, history), a, Banned(policy, a))
  {
    hide WindowOf, Key, DictOf, Banned, NoCounters, Ports, NoColon, Warned;
    var p, w := policy(a.port), WindowOf(policy(a.port), a.nowMs);
    WindowSpans(p, a.nowMs);
    Cancel(1000 * p.window, m, w + 1);
    forall i | 0 <= i < |history| && history[i].port == a.port && history[i].ip == a.ip
      ensures WindowOf(p, history[i].nowMs) < w
    {
      WindowSpans(p, history[i].nowMs);
      Cancel(1000 * p.window, WindowOf(p, history[i].nowMs), m);
    }
    NoTriesBefore(policy, history, a.port, a.ip, w);
    CounterIsTries(policy, first, history, a.port, a.ip, w);
    WarnedCount(p, DictOf(policy, first, history), a, a.port, a.ip, w);
  }

  /** With the rate at 0 the counter is off: whoever is not banned gets in. */
  lemma {:induction false} OffLetsAllIn(policy: string -> Policy, first: Dict, history: seq<Attempt>,
                                        port: string, ip: string, lo: int, hi: int)
    requires policy(port).rate == 0
    ensures LetIn(policy, first, history, port, ip, lo, hi) == Tries(policy, history, port, ip, lo, hi)
  {
    hide Banned, WindowOf;
    if history != [] { OffLetsAllIn(policy, first, history[..|history| - 1], port, ip, lo, hi); }
  }

  /** A listener without a ban file, or whose ban file is missing, leaves its
      warning behind with the first attempt. */
  lemma {:induction false} WarningsGiven(policy: string -> Policy, first: Dict, history: seq<Attempt>, i: nat)
    requires i < |history|
    ensures var a, d := history[i], DictOf(policy, first, history);
            && (policy(a.port).banFile == "" ==> "__shield_warn_nobanfile:" + a.port in d)
            && (policy(a.port).banFile != "" && a.disk.Missing? ==> "__shield_warn_banload:" + a.port in d)
  {
    hide Banned, Key;
    if i < |history| - 1 {
      WarningsGiven(policy, first, history[..|history| - 1], i);
    } else {
      assert "__shield_warn_nobanfile" + ":" + history[i].port == "__shield_warn_nobanfile:" + history[i].port;
      assert "__shield_warn_banload" + ":" + history[i].port == "__shield_warn_banload:" + history[i].port;
    }
  }

  lemma AtMostNextWindow(p: Policy, fromMs: nat, toMs: nat)
    requires p.window > 0 && fromMs <= toMs <= fromMs + 1000 * p.window
    ensures WindowOf(p, fromMs) <= WindowOf(p, toMs) <= WindowOf(p, fromMs) + 1
  {
    NextWindow(fromMs / 1000, toMs / 1000, p.window);
  }

  lemma Cancel(w: nat, x: int, y: int)
    requires w > 0 && w * x < w * y
    ensures x < y
  {
  }

  lemma NextWindow(a: nat, b: nat, w: nat)
    requires w > 0 && a <= b <= a + w
    ensures a / w <= b / w <= a / w + 1
  {
    var q, r := a / w, b / w;
    assert w * q <= a < w * q + w && w * r <= b < w * r + w;
    assert w * (r + 1) == w * r + w && w * (q + 2) == w * q + w + w;
    Cancel(w, q, r + 1);
    Cancel(w, r, q + 2);
  }
}
