/** The banlist-file backend: writers serialised by a lock replace the file
    whole, readers take no lock. */
module BanFile {
  import opened Wrappers
  import opened BanSpec

  datatype Entry = Entry(ip: string, until: int)

  /** A missing file is an empty list. */
  type File = Option<seq<Entry>>

  /** What the command line asks for. */
  datatype Verb = BanFor(ip: string, ttl: int) | Lift(ip: string)

  /** The deadline is fixed when the command starts, before it has the lock. */
  function Requested(v: Verb, now: int): Command {
    match v
    case BanFor(ip, ttl) => Ban(ip, if ttl <= 0 then 0 else now + ttl)
    case Lift(ip) => Unban(ip)
  }

  function Unexpired(entries: seq<Entry>, now: int): seq<Entry> {
    if entries == [] then []
    else (if InForce(entries[0].until, now) then [entries[0]] else []) + Unexpired(entries[1..], now)
  }

  function ActiveEntries(file: File, now: int): seq<Entry> {
    if file.None? then [] else Unexpired(file.value, now)
  }

  function Others(entries: seq<Entry>, ip: string): seq<Entry> {
    if entries == [] then []
    else (if entries[0].ip != ip then [entries[0]] else []) + Others(entries[1..], ip)
  }

  /** The list a command writes, from the file it read. */
  function NewList(file: File, now: int, c: Command): seq<Entry> {
    Others(ActiveEntries(file, now), c.ip) + if c.Ban? then [Entry(c.ip, c.until)] else []
  }

  /** The check verb: the deadlines of the active lines for `ip`. */
  function Check(file: File, ip: string, now: int): seq<int> {
    Deadlines(ActiveEntries(file, now), ip)
  }

  function Deadlines(entries: seq<Entry>, ip: string): seq<int> {
    if entries == [] then []
    else (if entries[0].ip == ip then [entries[0].until] else []) + Deadlines(entries[1..], ip)
  }

  /** How far one process has got. */
  datatype Stage =
    | Idle
    | Waiting(c: Command)                                    // for the lock
    | Holding(c: Command)                                    // the lock
    | Dated(c: Command, now: int)                            // has read the clock
    | Copying(c: Command, list: seq<Entry>, tmp: seq<Entry>) // its private temporary file
    | Replaced(c: Command)                                   // renamed over the banlist

  datatype System = System(file: File, holder: Option<nat>, procs: map<nat, Stage>, clock: int, log: seq<Command>) {
    function At(p: nat): Stage {
      if p in procs then procs[p] else Idle
    }

    function Move(p: nat, stage: Stage): System {
      this.(procs := procs[p := stage])
    }
  }

  datatype Step =
    | Tick(now: int)
    | Start(p: nat, v: Verb)
    | Acquire(p: nat)
    | ReadClock(p: nat)
    | ReadFile(p: nat)
    | WriteLine(p: nat)
    | Rename(p: nat)
    | Release(p: nat)
    | Die(p: nat)

  /** When a step can happen. */
  predicate Enabled(s: System, step: Step) {
    match step
    case Tick(now) => s.clock <= now
    case Start(p, _) => s.At(p).Idle?
    case Acquire(p) => s.At(p).Waiting? && s.holder.None?
    case ReadClock(p) => s.At(p).Holding?
    case ReadFile(p) => s.At(p).Dated?
    case WriteLine(p) => s.At(p).Copying? && |s.At(p).tmp| < |s.At(p).list|
    case Rename(p) => s.At(p).Copying? && s.At(p).tmp == s.At(p).list
    case Release(p) => s.At(p).Replaced?
    case Die(p) => !s.At(p).Idle?
  }

  function Do(s: System, step: Step): System
    requires Enabled(s, step)
  {
    match step
    case Tick(now) => s.(clock := now)
    case Start(p, v) => s.Move(p, Waiting(Requested(v, s.clock)))
    case Acquire(p) => s.Move(p, Holding(s.At(p).c)).(holder := Some(p))
    case ReadClock(p) => s.Move(p, Dated(s.At(p).c, s.clock))
    case ReadFile(p) => s.Move(p, Copying(s.At(p).c, NewList(s.file, s.At(p).now, s.At(p).c), []))
    case WriteLine(p) => s.Move(p, s.At(p).(tmp := s.At(p).tmp + [s.At(p).list[|s.At(p).tmp|]]))
    case Rename(p) => s.Move(p, Replaced(s.At(p).c)).(file := Some(s.At(p).tmp), log := s.log + [s.At(p).c])
    case Release(p) => s.Move(p, Idle).(holder := None)
    case Die(p) => s.Move(p, Idle).(holder := if s.holder == Some(p) then None else s.holder)
  }

  /** Any interleaving of any number of processes. */
  predicate Legal(s: System, steps: seq<Step>)
    decreases |steps|, 0
  {
    steps == [] || (Legal(s, steps[..|steps| - 1]) && Enabled(Exec(s, steps[..|steps| - 1]), steps[|steps| - 1]))
  }

  function Exec(s: System, steps: seq<Step>): System
    requires Legal(s, steps)
    decreases |steps|, 1
  {
    if steps == [] then s else Do(Exec(s, steps[..|steps| - 1]), steps[|steps| - 1])
  }

  predicate OneLineEach(entries: seq<Entry>) {
    forall i, j :: 0 <= i < j < |entries| ==> entries[i].ip != entries[j].ip
  }

  function Lines(file: File): seq<Entry> {
    if file.None? then [] else file.value
  }

  function Table(entries: seq<Entry>): map<string, int> {
    if entries == [] then map[] else Table(entries[1..])[entries[0].ip := entries[0].until]
  }

  /** `entries` says what `bans` says, as far as deadlines still ahead go. */
  predicate Agrees(entries: seq<Entry>, bans: map<string, int>, clock: int) {
    && OneLineEach(entries)
    && (forall e :: e in entries ==> e.ip in bans && bans[e.ip] == e.until)
    && (forall ip :: ip in bans && InForce(bans[ip], clock) ==> Entry(ip, bans[ip]) in entries)
  }

  /** Only the holder of the lock is past it, and what it is about to install
      is its own command applied to everything installed so far. */
  predicate StageOk(s: System, bans: map<string, int>, p: nat) {
    match s.At(p)
    case Idle => s.holder != Some(p)
    case Waiting(_) => s.holder != Some(p)
    case Holding(_) => s.holder == Some(p)
    case Dated(_, now) => s.holder == Some(p) && now <= s.clock
    case Copying(c, list, tmp) => s.holder == Some(p) && tmp <= list && Agrees(list, Apply(bans, c), s.clock)
    case Replaced(c) => s.holder == Some(p) && s.log != [] && s.log[|s.log| - 1] == c
  }

  ghost predicate Inv(s: System, initial: map<string, int>) {
    var bans := ApplyAll(initial, s.log);
    Agrees(Lines(s.file), bans, s.clock) && forall p: nat :: StageOk(s, bans, p)
  }

  lemma {:induction false} UnexpiredMembers(entries: seq<Entry>, now: int)
    ensures forall e :: e in Unexpired(entries, now) <==> e in entries && InForce(e.until, now)
    ensures OneLineEach(entries) ==> OneLineEach(Unexpired(entries, now))
  {
    if entries != [] {
      UnexpiredMembers(entries[1..], now);
      assert entries == [entries[0]] + entries[1..];
    }
  }

  lemma {:induction false} OthersMembers(entries: seq<Entry>, ip: string)
    ensures forall e :: e in Others(entries, ip) <==> e in entries && e.ip != ip
    ensures OneLineEach(entries) ==> OneLineEach(Others(entries, ip))
  {
    if entries != [] {
      OthersMembers(entries[1..], ip);
      assert entries == [entries[0]] + entries[1..];
    }
  }

  lemma NewListMembers(file: File, now: int, c: Command)
    requires OneLineEach(Lines(file))
    ensures OneLineEach(NewList(file, now, c))
    ensures forall e :: e in NewList(file, now, c) <==>
              (e in Lines(file) && InForce(e.until, now) && e.ip != c.ip) || (c.Ban? && e == Entry(c.ip, c.until))
  {
    UnexpiredMembers(Lines(file), now);
    OthersMembers(ActiveEntries(file, now), c.ip);
  }

  /** The list written under the lock is the command applied to the file read,
      give or take entries that have expired. */
  lemma NewListAgrees(file: File, now: int, clock: int, c: Command, bans: map<string, int>)
    requires Agrees(Lines(file), bans, clock) && now <= clock
    ensures Agrees(NewList(file, now, c), Apply(bans, c), clock)
  {
    NewListMembers(file, now, c);
  }

  lemma LogOneMore(initial: map<string, int>, log: seq<Command>, c: Command)
    ensures ApplyAll(initial, log + [c]) == Apply(ApplyAll(initial, log), c)
  {
    assert (log + [c])[..|log|] == log;
  }

  lemma StepKeeps(s: System, step: Step, initial: map<string, int>)
    requires Inv(s, initial) && Enabled(s, step)
    ensures Inv(Do(s, step), initial)
  {
    hide Agrees, StageOk, ApplyAll, NewList;
    var bans := ApplyAll(initial, s.log);
    match step
    case Tick(now) => TickKeeps(s, now, bans);
    case ReadFile(p) => ReadFileKeeps(s, p, bans);
    case Rename(p) =>
      LogOneMore(initial, s.log, s.At(p).c);
      RenameKeeps(s, p, bans);
    case _ => OwnStepKeeps(s, step, bans);
  }

  lemma AgreesLater(entries: seq<Entry>, bans: map<string, int>, clock: int, later: int)
    requires Agrees(entries, bans, clock) && clock <= later
    ensures Agrees(entries, bans, later)
  {
  }

  lemma TickKeeps(s: System, now: int, bans: map<string, int>)
    requires s.clock <= now && Agrees(Lines(s.file), bans, s.clock) && forall p: nat :: StageOk(s, bans, p)
    ensures Agrees(Lines(s.file), bans, now) && forall p: nat :: StageOk(Do(s, Tick(now)), bans, p)
  {
    hide Agrees, Apply;
    AgreesLater(Lines(s.file), bans, s.clock, now);
    forall p: nat ensures StageOk(Do(s, Tick(now)), bans, p) {
      assert StageOk(s, bans, p);
      if s.At(p).Copying? { AgreesLater(s.At(p).list, Apply(bans, s.At(p).c), s.clock, now); }
    }
  }

  lemma ReadFileKeeps(s: System, p: nat, bans: map<string, int>)
    requires Enabled(s, ReadFile(p)) && Agrees(Lines(s.file), bans, s.clock) && forall q: nat :: StageOk(s, bans, q)
    ensures forall q: nat :: StageOk(Do(s, ReadFile(p)), bans, q)
  {
    hide Agrees, Apply, NewList;
    assert StageOk(s, bans, p);
    NewListAgrees(s.file, s.At(p).now, s.clock, s.At(p).c, bans);
    forall q: nat ensures StageOk(Do(s, ReadFile(p)), bans, q) { assert StageOk(s, bans, q); }
  }

  lemma RenameKeeps(s: System, p: nat, bans: map<string, int>)
    requires Enabled(s, Rename(p)) && forall q: nat :: StageOk(s, bans, q)
    ensures var s', bans' := Do(s, Rename(p)), Apply(bans, s.At(p).c);
            Agrees(Lines(s'.file), bans', s'.clock) && forall q: nat :: StageOk(s', bans', q)
  {
    hide Agrees, Apply;
    assert StageOk(s, bans, p);
    forall q: nat ensures StageOk(Do(s, Rename(p)), Apply(bans, s.At(p).c), q) { assert StageOk(s, bans, q); }
  }

  /** Steps that touch nothing but the process itself and the lock. */
  lemma OwnStepKeeps(s: System, step: Step, bans: map<string, int>)
    requires Enabled(s, step) && !step.Tick? && !step.ReadFile? && !step.Rename?
    requires forall p: nat :: StageOk(s, bans, p)
    ensures forall p: nat :: StageOk(Do(s, step), bans, p)
  {
    hide Agrees, NewList, Requested;
    forall q: nat ensures StageOk(Do(s, step), bans, q) {
      assert StageOk(s, bans, q) && StageOk(s, bans, step.p);
    }
  }

  /** Before anything runs: some file, nobody at work. */
  predicate Init(s: System) {
    s.holder.None? && s.procs == map[] && s.log == [] && OneLineEach(Lines(s.file))
  }

  lemma FirstLineAlone(entries: seq<Entry>)
    requires entries != [] && OneLineEach(entries)
    ensures forall e :: e in entries[1..] ==> e.ip != entries[0].ip
  {
    forall e | e in entries[1..] ensures e.ip != entries[0].ip {
      var j :| 0 <= j < |entries[1..]| && entries[1..][j] == e;
      assert entries[j + 1] == e;
    }
  }

  lemma {:induction false} TableAgrees(entries: seq<Entry>, clock: int)
    requires OneLineEach(entries)
    ensures Agrees(entries, Table(entries), clock)
    ensures forall ip :: ip in Table(entries) ==> Entry(ip, Table(entries)[ip]) in entries
  {
    if entries != [] {
      TableAgrees(entries[1..], clock);
      assert entries == [entries[0]] + entries[1..];
      FirstLineAlone(entries);
    }
  }

  lemma {:induction false} ExecKeeps(s: System, steps: seq<Step>)
    requires Init(s) && Legal(s, steps)
    ensures Inv(Exec(s, steps), Table(Lines(s.file)))
  {
    if steps == [] {
      TableAgrees(Lines(s.file), s.clock);
    } else {
      ExecKeeps(s, steps[..|steps| - 1]);
      StepKeeps(Exec(s, steps[..|steps| - 1]), steps[|steps| - 1], Table(Lines(s.file)));
    }
  }

  /** What the commands installed so far amount to, one after the other. */
  function Bans(s: System, steps: seq<Step>): map<string, int>
    requires Legal(s, steps)
  {
    ApplyAll(Table(Lines(s.file)), Exec(s, steps).log)
  }

  lemma {:induction false} DeadlinesOf(entries: seq<Entry>, ip: string)
    requires OneLineEach(entries)
    ensures |Deadlines(entries, ip)| <= 1
    ensures forall u :: u in Deadlines(entries, ip) <==> Entry(ip, u) in entries
  {
    if entries != [] {
      DeadlinesOf(entries[1..], ip);
      assert entries == [entries[0]] + entries[1..];
      FirstLineAlone(entries);
      var more := Deadlines(entries[1..], ip);
      assert more == [] || more[0] in more;
      assert more == [] || Entry(ip, more[0]) in entries[1..];
    }
  }

  /** What the check verb answers on a list that says what `bans` says. */
  lemma CheckAnswers(file: File, bans: map<string, int>, clock: int, ip: string, now: int)
    requires Agrees(Lines(file), bans, clock) && now <= clock
    ensures var answer := Check(file, ip, now);
            && (answer != [] ==> Banned(bans, ip, now) && answer == [bans[ip]])
            && (Banned(bans, ip, clock) ==> answer == [bans[ip]])
  {
    hide Unexpired, Deadlines;
    UnexpiredMembers(Lines(file), now);
    DeadlinesOf(ActiveEntries(file, now), ip);
    var answer := Check(file, ip, now);
    if answer != [] {
      assert answer[0] in answer && answer == [answer[0]];
      assert Entry(ip, answer[0]) in Lines(file);
    }
    if Banned(bans, ip, clock) {
      assert Entry(ip, bans[ip]) in ActiveEntries(file, now);
      assert bans[ip] in answer;
    }
  }

  /** At any moment of any interleaving, a reader that took its clock at `now`
      and opens the file sees one whole list: nothing is reported that the
      commands installed so far, in the order they held the lock, do not put in
      force at `now`; everything they still have in force is reported. When the
      clock has not moved in between, the two coincide. */
  lemma ReadersSeeLockOrder(s: System, steps: seq<Step>, ip: string, now: int)
    requires Init(s) && Legal(s, steps) && now <= Exec(s, steps).clock
    ensures var here, bans := Exec(s, steps), Bans(s, steps);
            var answer := Check(here.file, ip, now);
            && OneLineEach(Lines(here.file))
            && (answer != [] ==> Banned(bans, ip, now) && answer == [bans[ip]])
            && (Banned(bans, ip, here.clock) ==> answer == [bans[ip]])
            && (now == here.clock ==> (answer != [] <==> Banned(bans, ip, now)))
  {
    hide Check, ApplyAll, Do, StageOk;
    ExecKeeps(s, steps);
    CheckAnswers(Exec(s, steps).file, Bans(s, steps), Exec(s, steps).clock, ip, now);
  }

  /** The list verb shows the same: every active line, once per address. */
  lemma ListIsTheBans(s: System, steps: seq<Step>)
    requires Init(s) && Legal(s, steps)
    ensures var here, bans := Exec(s, steps), Bans(s, steps);
            var shown := ActiveEntries(here.file, here.clock);
            && OneLineEach(shown)
            && forall ip, u :: Entry(ip, u) in shown <==> Banned(bans, ip, here.clock) && bans[ip] == u
  {
    ExecKeeps(s, steps);
    UnexpiredMembers(Lines(Exec(s, steps).file), Exec(s, steps).clock);
  }

  lemma {:induction false} LogOnlyGrows(s: System, steps: seq<Step>, k: nat)
    requires Legal(s, steps) && k <= |steps|
    ensures Legal(s, steps[..k]) && Exec(s, steps[..k]).log <= Exec(s, steps).log
    decreases |steps|
  {
    if k == |steps| {
      assert steps[..k] == steps;
    } else {
      var before := steps[..|steps| - 1];
      assert steps[..k] == before[..k];
      LogOnlyGrows(s, before, k);
    }
  }

  /** No update is lost: a command whose process got as far as installing its
      file is counted, in its place, for ever after. */
  lemma InstalledForGood(s: System, steps: seq<Step>, k: nat, p: nat)
    requires Init(s) && Legal(s, steps) && k <= |steps|
    requires Legal(s, steps[..k]) && Exec(s, steps[..k]).At(p).Replaced?
    ensures var there := Exec(s, steps[..k]);
            && there.log != [] && there.log[|there.log| - 1] == there.At(p).c
            && there.log <= Exec(s, steps).log
  {
    LogOnlyGrows(s, steps, k);
    ExecKeeps(s, steps[..k]);
    assert StageOk(Exec(s, steps[..k]), Bans(s, steps[..k]), p);
  }

  lemma OneMoreStep(s: System, steps: seq<Step>, step: Step)
    requires Legal(s, steps) && Enabled(Exec(s, steps), step)
    ensures Legal(s, steps + [step]) && Exec(s, steps + [step]) == Do(Exec(s, steps), step)
  {
    assert (steps + [step])[..|steps|] == steps;
  }

  /** A process that holds the lock and has its list can write all of it. */
  lemma {:induction false} WritesOut(s: System, steps: seq<Step>, p: nat) returns (all: seq<Step>)
    requires Legal(s, steps) && Exec(s, steps).At(p).Copying? && Exec(s, steps).At(p).tmp <= Exec(s, steps).At(p).list
    ensures Legal(s, all)
    ensures var here, stage := Exec(s, steps), Exec(s, steps).At(p);
            Exec(s, all) == here.Move(p, Copying(stage.c, stage.list, stage.list))
    decreases |Exec(s, steps).At(p).list| - |Exec(s, steps).At(p).tmp|
  {
    hide Legal, Exec;
    var here, stage := Exec(s, steps), Exec(s, steps).At(p);
    if |stage.tmp| == |stage.list| {
      all := steps;
      assert stage.tmp == stage.list && stage == Copying(stage.c, stage.list, stage.list);
      assert here.procs[p := stage] == here.procs;
    } else {
      OneMoreStep(s, steps, WriteLine(p));
      var next := stage.(tmp := stage.tmp + [stage.list[|stage.tmp|]]);
      all := WritesOut(s, steps + [WriteLine(p)], p);
      var done := Copying(stage.c, stage.list, stage.list);
      assert here.procs[p := next][p := done] == here.procs[p := done];
    }
  }

  /** A command that finds the lock free can always be carried through: it
      replaces the file by the list it makes of it and gives the lock back. */
  lemma CommandCompletes(s: System, p: nat, v: Verb) returns (steps: seq<Step>)
    requires s.holder == None && s.At(p).Idle?
    ensures Legal(s, steps)
    ensures var c := Requested(v, s.clock);
            Exec(s, steps) == s.Move(p, Idle).(file := Some(NewList(s.file, s.clock, c)), log := s.log + [c])
  {
    hide Legal, Exec, NewList, Requested;
    var c := Requested(v, s.clock);
    NoSteps(s);
    OneMoreStep(s, [], Start(p, v));
    OneMoreStep(s, [] + [Start(p, v)], Acquire(p));
    OneMoreStep(s, [] + [Start(p, v)] + [Acquire(p)], ReadClock(p));
    var upTo := [] + [Start(p, v)] + [Acquire(p)] + [ReadClock(p)];
    OneMoreStep(s, upTo, ReadFile(p));
    var written := WritesOut(s, upTo + [ReadFile(p)], p);
    OneMoreStep(s, written, Rename(p));
    OneMoreStep(s, written + [Rename(p)], Release(p));
    steps := written + [Rename(p)] + [Release(p)];
    assert Exec(s, steps).procs == s.procs[p := Idle];
  }

  lemma NoSteps(s: System)
    ensures Legal(s, []) && Exec(s, []) == s
  {
  }
}
