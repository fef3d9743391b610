/** The kernel backend: a fixed-capacity ban map, the commands that manage it
    and the decision the classifier takes from it. */
module Guard {
  import BanSpec

  type Addr = string

  /** An address argument: only IPv6 reaches the map. */
  datatype Parsed = V6(addr: Addr) | V4 | Invalid

  const U64_MAX: nat := 0xffff_ffff_ffff_ffff
  const NS: nat := 1_000_000_000

  function Saturate(x: nat): nat {
    if x <= U64_MAX then x else U64_MAX
  }

  function SaturatingSub(a: nat, b: nat): nat {
    if a < b then 0 else a - b
  }

  /** Kernel deadline in monotonic ns (0 = permanent) and its wall-clock
      counterpart in seconds. */
  datatype BanVal = BanVal(mono: nat, epoch: nat)

  type BanMap = map<Addr, BanVal>

  predicate Lapsed(v: BanVal, now: nat) {
    v.mono != 0 && v.mono <= now
  }

  /** The classifier's test. */
  predicate Drops(bans: BanMap, src: Addr, now: nat) {
    src in bans && (bans[src].mono == 0 || bans[src].mono > now)
  }

  function Live(bans: BanMap, now: nat): BanMap {
    map a | a in bans && !Lapsed(bans[a], now) :: bans[a]
  }

  function NewBan(seconds: int, mono: nat, epoch: nat): BanVal {
    if seconds <= 0 then BanVal(0, 0)
    else BanVal(Saturate(mono + Saturate(seconds * NS)), Saturate(epoch + seconds))
  }

  predicate Distinct(s: seq<Addr>) {
    forall i, j :: 0 <= i < j < |s| ==> s[i] != s[j]
  }

  function Members(s: seq<Addr>): set<Addr> {
    set a | a in s
  }

  datatype Outcome = Done | NotIpv6 | BadAddress | MapFull

  /** One guard command and the instant it runs at. */
  datatype Command =
    | BanCmd(addr: Addr, seconds: int)
    | UnbanCmd(addr: Addr)
    | CheckCmd(addr: Addr)
    | ListCmd
    | StatsCmd

  datatype Call = Call(c: Command, mono: nat, epoch: nat)

  /** Whether a ban command gets its entry in. */
  predicate Succeeds(bans: BanMap, capacity: nat, call: Call) {
    call.c.BanCmd? ==> call.c.addr in bans || |Live(bans, call.mono)| < capacity
  }

  /** The map after a command, as the methods of BanTable leave it. */
  function Perform(bans: BanMap, capacity: nat, call: Call): BanMap {
    match call.c
    case BanCmd(a, seconds) =>
      if a in bans || |bans| < capacity then bans[a := NewBan(seconds, call.mono, call.epoch)]
      else if Succeeds(bans, capacity, call) then Live(bans, call.mono)[a := NewBan(seconds, call.mono, call.epoch)]
      else Live(bans, call.mono)
    case UnbanCmd(a) => bans - {a}
    case CheckCmd(a) => if Drops(bans, a, call.mono) then bans else bans - {a}
    case ListCmd => Live(bans, call.mono)
    case StatsCmd => Live(bans, call.mono)
  }

  class BanTable {
    const capacity: nat
    var bans: BanMap

    ghost predicate Valid()
      reads this
    {
      |bans| <= capacity
    }

    constructor (capacity: nat)
      ensures Valid() && bans == map[] && this.capacity == capacity
    {
      this.capacity, this.bans := capacity, map[];
    }

    /** A hash map of fixed size: an update of a present key always fits. */
    method Insert(a: Addr, v: BanVal) returns (ok: bool)
      requires Valid()
      modifies this
      ensures Valid() && ok == (a in old(bans) || |old(bans)| < capacity)
      ensures bans == if ok then old(bans)[a := v] else old(bans)
    {
      if a !in bans && |bans| >= capacity { return false; }
      ghost var before := bans;
      bans := bans[a := v];
      assert bans.Keys == before.Keys + {a};
      return true;
    }

    method Remove(a: Addr)
      requires Valid()
      modifies this
      ensures Valid() && bans == old(bans) - {a}
    {
      ghost var before := bans;
      bans := bans - {a};
      SmallerMap(bans, before);
    }

    method CollectLapsed(now: nat) returns (lapsed: seq<Addr>)
      ensures forall a :: a in lapsed <==> a in bans && Lapsed(bans[a], now)
      ensures Distinct(lapsed)
    {
      lapsed := [];
      var keys := bans.Keys;
      while keys != {}
        invariant keys <= bans.Keys
        invariant forall a :: a in lapsed <==> a in bans && a !in keys && Lapsed(bans[a], now)
        invariant Distinct(lapsed)
        decreases |keys|
      {
        var a :| a in keys;
        keys := keys - {a};
        if bans[a].mono != 0 && bans[a].mono <= now { lapsed := lapsed + [a]; }
      }
    }

    method RemoveAll(gone: seq<Addr>)
      requires Valid() && Distinct(gone) && forall a :: a in gone ==> a in bans
      modifies this
      ensures Valid() && bans == old(bans) - Members(gone)
      ensures |bans| + |gone| == |old(bans)|
    {
      assert bans == bans - Members(gone[..0]);
      for i := 0 to |gone|
        invariant Valid() && bans == old(bans) - Members(gone[..i])
        invariant |bans| + i == |old(bans)|
      {
        RemoveNext(old(bans), gone, i);
        Remove(gone[i]);
      }
      assert gone[..|gone|] == gone;
    }

    /** Collect the lapsed keys, then delete them one by one. */
    method PruneExpired(now: nat) returns (n: nat)
      requires Valid()
      modifies this
      ensures Valid() && bans == Live(old(bans), now)
      ensures n == |old(bans)| - |bans|
    {
      var lapsed := CollectLapsed(now);
      RemoveAll(lapsed);
      return |lapsed|;
    }

    /** A ban fails only when it must: the address is not in the map already
        and every slot is taken by a ban still in force. */
    method Ban(p: Parsed, seconds: int, mono: nat, epoch: nat) returns (r: Outcome)
      requires Valid()
      modifies this
      ensures Valid()
      ensures p.Invalid? ==> r == BadAddress && bans == old(bans)
      ensures p.V4? ==> r == NotIpv6 && bans == old(bans)
      ensures p.V6? ==> (r == MapFull <==> p.addr !in old(bans) && |Live(old(bans), mono)| >= capacity)
      ensures p.V6? ==> r == MapFull || r == Done
      ensures p.V6? ==> bans == Perform(old(bans), capacity, Call(BanCmd(p.addr, seconds), mono, epoch))
      ensures r == Done ==> p.addr in bans && bans[p.addr] == NewBan(seconds, mono, epoch)
      ensures r == MapFull ==>
                && p.addr !in bans && |bans| == capacity
                && (forall a :: a in bans ==> !Lapsed(bans[a], mono))
    {
      if p.Invalid? { return BadAddress; }
      if p.V4? { return NotIpv6; }
      var val := if seconds <= 0 then BanVal(0, 0)
                 else BanVal(Saturate(mono + Saturate(seconds * NS)), Saturate(epoch + seconds));
      SmallerMap(Live(bans, mono), bans);
      var ok := Insert(p.addr, val);
      if !ok {
        var reclaimed := PruneExpired(mono);
        ok := Insert(p.addr, val);
        if !ok { return MapFull; }
      }
      return Done;
    }

    /** After a successful unban the address is out of the map. */
    method Unban(p: Parsed) returns (r: Outcome)
      requires Valid()
      modifies this
      ensures Valid()
      ensures p.V6? ==> r == Done && bans == old(bans) - {p.addr}
      ensures !p.V6? ==> r != Done && bans == old(bans)
      ensures p.V6? ==> forall mono, epoch :: bans == Perform(old(bans), capacity, Call(UnbanCmd(p.addr), mono, epoch))
    {
      if p.Invalid? { return BadAddress; }
      if p.V4? { return NotIpv6; }
      Remove(p.addr);
      return Done;
    }

    /** The answer is the classifier's; a lapsed entry is dropped on the way. */
    method Check(p: Parsed, mono: nat) returns (banned: bool)
      requires Valid()
      modifies this
      ensures Valid()
      ensures banned == (p.V6? && Drops(old(bans), p.addr, mono))
      ensures bans == if p.V6? then Perform(old(bans), capacity, Call(CheckCmd(p.addr), mono, 0)) else old(bans)
    {
      if !p.V6? || p.addr !in bans {
        if p.V6? { assert bans - {p.addr} == bans; }
        return false;
      }
      var v := bans[p.addr];
      if v.mono == 0 || v.mono > mono { return true; }
      Remove(p.addr);
      return false;
    }

    /** Exactly the bans in force, each with its reported deadline. */
    method List(mono: nat) returns (active: map<Addr, nat>)
      requires Valid()
      modifies this
      ensures Valid() && bans == Live(old(bans), mono)
      ensures forall epoch :: bans == Perform(old(bans), capacity, Call(ListCmd, mono, epoch))
      ensures forall a :: a in active <==> Drops(old(bans), a, mono)
      ensures forall a :: a in active ==> a in old(bans) && active[a] == old(bans)[a].epoch
    {
      var pruned := PruneExpired(mono);
      active := map[];
      var keys := bans.Keys;
      while keys != {}
        invariant keys <= bans.Keys && bans == Live(old(bans), mono)
        invariant forall a :: a in active <==> a in bans && a !in keys
        invariant forall a :: a in active ==> a in old(bans) && active[a] == old(bans)[a].epoch
        decreases |keys|
      {
        var a :| a in keys;
        keys := keys - {a};
        if bans[a].mono == 0 || bans[a].mono > mono { active := active[a := bans[a].epoch]; }
      }
    }

    /** The ban line of the statistics: how many are in force, out of how many
        slots, and how many were reclaimed. */
    method Stats(mono: nat) returns (active: nat, slots: nat, reclaimed: nat)
      requires Valid()
      modifies this
      ensures Valid() && bans == Live(old(bans), mono)
      ensures forall epoch :: bans == Perform(old(bans), capacity, Call(StatsCmd, mono, epoch))
      ensures active == |Live(old(bans), mono)| && slots == capacity && active + reclaimed == |old(bans)|
    {
      SmallerMap(Live(bans, mono), bans);
      var total := |bans|;
      var stale := PruneExpired(mono);
      return SaturatingSub(total, stale), capacity, stale;
    }
  }

  lemma RemoveNext(bans: BanMap, gone: seq<Addr>, i: nat)
    requires i < |gone| && Distinct(gone) && gone[i] in bans
    ensures bans - Members(gone[..i]) - {gone[i]} == bans - Members(gone[..i + 1])
    ensures |bans - Members(gone[..i + 1])| + 1 == |bans - Members(gone[..i])|
  {
    var left := bans - Members(gone[..i]);
    assert gone[..i + 1] == gone[..i] + [gone[i]];
    assert Members(gone[..i + 1]) == Members(gone[..i]) + {gone[i]};
    assert gone[i] in left;
    assert (left - {gone[i]}).Keys == left.Keys - {gone[i]};
  }

  // ---- Whole histories of commands ----

  /** The plain meaning: the last successful ban or unban of each address. */
  function Mean(spec: map<string, int>, ok: bool, call: Call): map<string, int> {
    match call.c
    case BanCmd(a, seconds) =>
      if ok then BanSpec.Apply(spec, BanSpec.Ban(a, if seconds <= 0 then 0 else call.mono + seconds * NS)) else spec
    case UnbanCmd(a) => BanSpec.Apply(spec, BanSpec.Unban(a))
    case _ => spec
  }

  function Maps(capacity: nat, calls: seq<Call>): (BanMap, map<string, int>) {
    if calls == [] then (map[], map[])
    else
      var (bans, spec) := Maps(capacity, calls[..|calls| - 1]);
      var call := calls[|calls| - 1];
      (Perform(bans, capacity, call), Mean(spec, Succeeds(bans, capacity, call), call))
  }

  /** What is stored is the meaning, capped at the widest deadline a kernel
      clock can hold; what is missing has lapsed. */
  predicate Refines(bans: BanMap, spec: map<string, int>, now: nat) {
    && (forall a :: a in bans ==> a in spec && spec[a] >= 0 && bans[a].mono == Saturate(spec[a]))
    && (forall a :: a in spec && a !in bans ==> spec[a] > 0 && Saturate(spec[a]) <= now)
  }

  lemma PerformRefines(bans: BanMap, spec: map<string, int>, capacity: nat, before: nat, call: Call)
    requires Refines(bans, spec, before) && before <= call.mono
    ensures Refines(Perform(bans, capacity, call), Mean(spec, Succeeds(bans, capacity, call), call), call.mono)
  {
    SweepRefines(bans, spec, before, call.mono);
    SmallerMap(Live(bans, call.mono), bans);
    match call.c
    case BanCmd(a, seconds) =>
      var until := if seconds <= 0 then 0 else call.mono + seconds * NS;
      assert NewBan(seconds, call.mono, call.epoch).mono == Saturate(until);
    case _ =>
  }

  lemma SweepRefines(bans: BanMap, spec: map<string, int>, before: nat, now: nat)
    requires Refines(bans, spec, before) && before <= now
    ensures Refines(bans, spec, now) && Refines(Live(bans, now), spec, now)
  {
  }

  lemma PerformWithinCapacity(bans: BanMap, capacity: nat, call: Call)
    requires |bans| <= capacity
    ensures |Perform(bans, capacity, call)| <= capacity
  {
    var live := Live(bans, call.mono);
    SmallerMap(live, bans);
    match call.c
    case BanCmd(a, seconds) =>
      OneMore(bans, a, NewBan(seconds, call.mono, call.epoch));
      OneMore(live, a, NewBan(seconds, call.mono, call.epoch));
    case UnbanCmd(a) => SmallerMap(bans - {a}, bans);
    case CheckCmd(a) => SmallerMap(bans - {a}, bans);
    case _ =>
  }

  lemma OneMore(m: BanMap, a: Addr, v: BanVal)
    ensures |m[a := v]| == if a in m then |m| else |m| + 1
  {
    assert m[a := v].Keys == m.Keys + {a};
  }

  predicate Monotone(calls: seq<Call>) {
    forall i, j :: 0 <= i <= j < |calls| ==> calls[i].mono <= calls[j].mono
  }

  lemma {:induction false} MapsRefine(capacity: nat, calls: seq<Call>)
    requires Monotone(calls)
    ensures Refines(Maps(capacity, calls).0, Maps(capacity, calls).1, if calls == [] then 0 else calls[|calls| - 1].mono)
    ensures |Maps(capacity, calls).0| <= capacity
  {
    if calls != [] {
      var before := calls[..|calls| - 1];
      MapsRefine(capacity, before);
      PerformRefines(Maps(capacity, before).0, Maps(capacity, before).1, capacity,
                     if before == [] then 0 else before[|before| - 1].mono, calls[|calls| - 1]);
      PerformWithinCapacity(Maps(capacity, before).0, capacity, calls[|calls| - 1]);
    }
  }

  /** After any history of guard commands the map is within its capacity, and at
      any later instant the classifier drops exactly the addresses whose last
      successful command was a ban that is permanent or not yet over. */
  lemma KernelEnforcesTheBans(capacity: nat, calls: seq<Call>, a: Addr, now: nat)
    requires Monotone(calls) && (calls != [] ==> calls[|calls| - 1].mono <= now) && now < U64_MAX
    ensures |Maps(capacity, calls).0| <= capacity
    ensures Drops(Maps(capacity, calls).0, a, now) <==> BanSpec.Banned(Maps(capacity, calls).1, a, now)
  {
    MapsRefine(capacity, calls);
  }

  /** Command `i` decides about `a`: an unban, or a ban that got in. */
  predicate Decides(capacity: nat, calls: seq<Call>, i: nat, a: Addr)
    requires i < |calls|
  {
    || calls[i].c == UnbanCmd(a)
    || (calls[i].c.BanCmd? && calls[i].c.addr == a && Succeeds(Maps(capacity, calls[..i]).0, capacity, calls[i]))
  }

  /** And no later one does. */
  predicate LastWord(capacity: nat, calls: seq<Call>, i: nat, a: Addr)
    requires i < |calls|
  {
    Decides(capacity, calls, i, a) && forall j :: i < j < |calls| ==> !Decides(capacity, calls, j, a)
  }

  function Capped(x: nat): nat {
    if x <= 18446744073709551615 then x else 18446744073709551615
  }

  /** What an unban, or a ban that got in, leaves in the map and means: deadlines
      are its duration after the two clocks at the time, 0 for a permanent ban. */
  predicate Stored(bans: BanMap, spec: map<string, int>, call: Call, a: Addr) {
    match call.c
    case BanCmd(_, seconds) =>
      var mono, epoch :=
        if seconds <= 0 then 0 else call.mono + seconds * 1_000_000_000, if seconds <= 0 then 0 else call.epoch + seconds;
      a in spec && spec[a] == mono && (a in bans ==> bans[a] == BanVal(Capped(mono), Capped(epoch)))
    case _ => a !in spec && a !in bans
  }

  lemma JustStored(bans: BanMap, spec: map<string, int>, capacity: nat, call: Call, a: Addr)
    requires call.c == UnbanCmd(a) || (call.c.BanCmd? && call.c.addr == a && Succeeds(bans, capacity, call))
    ensures Stored(Perform(bans, capacity, call), Mean(spec, Succeeds(bans, capacity, call), call), call, a)
  {
    hide Live;
  }

  /** The last word on an address is what is stored, and so listed, for it for as
      long as there is an entry. */
  lemma {:induction false} LastWordStored(capacity: nat, calls: seq<Call>, i: nat, a: Addr)
    requires i < |calls| && LastWord(capacity, calls, i, a)
    ensures Stored(Maps(capacity, calls).0, Maps(capacity, calls).1, calls[i], a)
    decreases |calls|
  {
    hide Perform, Mean, Succeeds, Live;
    var n := |calls| - 1;
    var before, last := calls[..n], calls[n];
    var (bans, spec) := Maps(capacity, before);
    if i < n {
      forall j | 0 <= j < n ensures Decides(capacity, before, j, a) == Decides(capacity, calls, j, a) {
        assert before[..j] == calls[..j];
      }
      LastWordStored(capacity, before, i, a);
      assert !Decides(capacity, calls, n, a);
      OthersKeep(bans, spec, capacity, last, a);
    } else {
      JustStored(bans, spec, capacity, last, a);
    }
  }

  /** A command that does not decide about `a` leaves its entry alone, or sweeps
      it. */
  lemma OthersKeep(bans: BanMap, spec: map<string, int>, capacity: nat, call: Call, a: Addr)
    requires call.c != UnbanCmd(a)
    requires call.c.BanCmd? && call.c.addr == a ==> !Succeeds(bans, capacity, call)
    ensures var bans', spec' := Perform(bans, capacity, call), Mean(spec, Succeeds(bans, capacity, call), call);
            && (a in bans' ==> a in bans && bans'[a] == bans[a])
            && (a in spec' <==> a in spec) && (a in spec' ==> spec'[a] == spec[a])
  {
    SmallerMap(Live(bans, call.mono), bans);
  }

  lemma {:induction false} NeverDecided(capacity: nat, calls: seq<Call>, a: Addr)
    requires forall j :: 0 <= j < |calls| ==> !Decides(capacity, calls, j, a)
    ensures a !in Maps(capacity, calls).1 && a !in Maps(capacity, calls).0
  {
    if calls != [] {
      var n := |calls| - 1;
      forall j | 0 <= j < n ensures !Decides(capacity, calls[..n], j, a) {
        assert calls[..n][..j] == calls[..j] && !Decides(capacity, calls, j, a);
      }
      NeverDecided(capacity, calls[..n], a);
      assert !Decides(capacity, calls, n, a);
      OthersKeep(Maps(capacity, calls[..n]).0, Maps(capacity, calls[..n]).1, capacity, calls[n], a);
    }
  }

  predicate StillBans(call: Call, now: nat) {
    call.c.BanCmd? && (call.c.seconds <= 0 || call.mono + call.c.seconds * 1_000_000_000 > now)
  }

  /** So at any later instant the classifier drops `a` if and only if the last
      word on it was a ban that is permanent or whose time is not yet up. */
  lemma DropsByLastWord(capacity: nat, calls: seq<Call>, a: Addr, now: nat)
    requires Monotone(calls) && (calls != [] ==> calls[|calls| - 1].mono <= now) && now < 18446744073709551615
    ensures Drops(Maps(capacity, calls).0, a, now)
       <==> exists i :: 0 <= i < |calls| && LastWord(capacity, calls, i, a) && StillBans(calls[i], now)
  {
    hide Maps, Decides;
    KernelEnforcesTheBans(capacity, calls, a, now);
    if exists j :: 0 <= j < |calls| && Decides(capacity, calls, j, a) {
      var i := LatestDecision(capacity, calls, a, |calls|);
      LastWordStored(capacity, calls, i, a);
    } else {
      NeverDecided(capacity, calls, a);
    }
  }

  lemma {:induction false} LatestDecision(capacity: nat, calls: seq<Call>, a: Addr, n: nat) returns (i: nat)
    requires n <= |calls| && exists j :: 0 <= j < n && Decides(capacity, calls, j, a)
    requires forall j :: n <= j < |calls| ==> !Decides(capacity, calls, j, a)
    ensures i < |calls| && LastWord(capacity, calls, i, a)
  {
    if Decides(capacity, calls, n - 1, a) { i := n - 1; } else { i := LatestDecision(capacity, calls, a, n - 1); }
  }

  /** Listing, checking and counting, and the sweep inside them, never change a
      decision, now or later; and a timed ban is never stored as permanent. */
  lemma SweepsAreInvisible(bans: BanMap, capacity: nat, call: Call, a: Addr, now: nat)
    requires call.mono <= now && !call.c.BanCmd? && !call.c.UnbanCmd?
    ensures Drops(Perform(bans, capacity, call), a, now) == Drops(bans, a, now)
  {
  }

  lemma TimedBanNeverPermanent(seconds: int, mono: nat, epoch: nat)
    requires seconds > 0
    ensures NewBan(seconds, mono, epoch).mono > 0
    ensures mono < U64_MAX ==> NewBan(seconds, mono, epoch).mono > mono
  {
  }

  lemma SmallerMap(a: BanMap, b: BanMap)
    requires a.Keys <= b.Keys
    ensures |a| <= |b|
  {
    SmallerSet(a.Keys, b.Keys);
    assert |a| == |a.Keys| && |b| == |b.Keys|;
  }

  lemma SmallerSet<T>(a: set<T>, b: set<T>)
    requires a <= b
    ensures |a| <= |b|
  {
    if a != {} {
      var x :| x in a;
      SmallerSet(a - {x}, b - {x});
    }
  }
}
