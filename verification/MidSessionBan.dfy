/** A ban issued while a session is open takes effect within the recheck
    interval, whatever the traffic. */
module MidSessionBan {
  import opened Wrappers
  import opened Bytes
  import opened Policy
  import opened Frames
  import opened Handshake
  import opened Engine
  import opened StreamInvariants
  import BanCache
  import BanFile
  import BanSpec

  lemma {:induction false} PumpTimer(env: Env, cfg: Cfg, st: St, now: int)
    ensures Pump(env, cfg, st, now).banCheckAt == st.banCheckAt && Pump(env, cfg, st, now).mode == st.mode
    decreases |st.acc|
  {
    hide TakeFrame, NextFrame, NoticeFrame, CloseFrame;
    if !st.killed && NextOf(cfg, st).Take? {
      TakeFrameLeaves(env, cfg, st, now);
      PumpTimer(env, cfg, TakeFrame(env, cfg, st, now), now);
    }
  }

  lemma ClassifyTimer(env: Env, cfg: Cfg, st: St, r: Read, end: nat)
    requires end <= |st.hs|
    ensures Classify(env, cfg, st, r, end).banCheckAt == st.banCheckAt
  {
    hide Pump, BareLf, IsUpgrade, NoticeFrame, CloseFrame;
    PumpTimer(env, cfg, st.(hs := [], sends := st.sends + [env.recode(st.hs[..end])],
                            mode := WebSocket, acc := st.hs[end..]), r.now);
  }

  lemma DeliverTimer(env: Env, cfg: Cfg, st: St, r: Read)
    ensures Deliver(env, cfg, st, r).banCheckAt == st.banCheckAt
    ensures st.mode == Plain ==> Deliver(env, cfg, st, r).mode == Plain
  {
    hide Pump, Classify, BlockEnd, Flatten, NoticeFrame, CloseFrame;
    var hs := st.hs + r.data;
    var end := BlockEnd(hs, st.hsScanned - 2);
    if end >= 0 { ClassifyTimer(env, cfg, st.(hsReads := st.hsReads + 1, hs := hs, hsScanned := |hs|), r, end); }
    var held := st.(msgReads := st.msgReads + 1, chunks := st.chunks + [r.data], pendingLen := st.pendingLen + |r.data|);
    PumpTimer(env, cfg, held.(acc := Unparsed(held), chunks := [], pendingLen := 0), r.now);
  }

  lemma StepTimer(env: Env, cfg: Cfg, st: St, r: Read)
    ensures var st' := OnData(env, cfg, st, r);
            if !st.killed && RecheckDue(cfg, st, r.now) then st'.banCheckAt == r.now + 1000 * cfg.banRecheck
            else st'.banCheckAt == st.banCheckAt
  {
    hide Deliver, NoticeFrame, CloseFrame;
    DeliverTimer(env, cfg, Recheck(cfg, st, r), r);
  }

  /** The read at which the ban list is asked. */
  predicate Asks(cfg: Cfg, states: seq<St>, rs: seq<Read>, i: nat)
    requires i < |rs| && i < |states|
  {
    !states[i].killed && RecheckDue(cfg, states[i], rs[i].now)
  }

  /** When it was last asked before read `k`; the opening counts as the first
      time. */
  function LastAsked(cfg: Cfg, start: int, rs: seq<Read>, states: seq<St>, k: nat): int
    requires k <= |rs| <= |states|
  {
    if k == 0 then start
    else if Asks(cfg, states, rs, k - 1) then rs[k - 1].now
    else LastAsked(cfg, start, rs, states, k - 1)
  }

  lemma {:induction false} TimerIsSet(env: Env, cfg: Cfg, start: int, rs: seq<Read>, states: seq<St>, k: nat)
    requires History(env, cfg, Open(cfg, start), rs, states) && k <= |rs|
    ensures states[k].banCheckAt == LastAsked(cfg, start, rs, states, k) + 1000 * cfg.banRecheck
  {
    if k > 0 {
      assert states[k - 1 + 1] == OnData(env, cfg, states[k - 1], rs[k - 1]);
      StepTimer(env, cfg, states[k - 1], rs[k - 1]);
      hide OnData, RecheckDue;
      TimerIsSet(env, cfg, start, rs, states, k - 1);
    }
  }

  /** The ban list is asked exactly by the reads of a live, non-plain session that
      come the recheck interval, or more, after it was last asked. */
  lemma AsksWhenDue(env: Env, cfg: Cfg, start: int, rs: seq<Read>, states: seq<St>, k: nat)
    requires History(env, cfg, Open(cfg, start), rs, states) && k < |rs|
    ensures Asks(cfg, states, rs, k)
       <==> && cfg.banOn && !states[k].killed && states[k].mode != Plain
            && rs[k].now - LastAsked(cfg, start, rs, states, k) >= 1000 * cfg.banRecheck
  {
    hide OnData, Open;
    TimerIsSet(env, cfg, start, rs, states, k);
  }

  /** From `from` on, the ban list answers yes. */
  predicate BannedFrom(rs: seq<Read>, from: int) {
    forall i :: 0 <= i < |rs| && rs[i].now >= from ==> rs[i].banned
  }

  lemma {:induction false} NextCheckComesSoon(env: Env, cfg: Cfg, start: int, rs: seq<Read>, from: int)
    requires cfg.banOn && start < from && BannedFrom(rs, from)
    ensures var st := Run(env, cfg, Open(cfg, start), rs);
            !st.killed && st.mode != Plain ==> st.banCheckAt < from + cfg.banRecheck * 1000
  {
    hide Deliver, NoticeFrame, CloseFrame;
    if rs != [] {
      var before, r := rs[..|rs| - 1], rs[|rs| - 1];
      NextCheckComesSoon(env, cfg, start, before, from);
      DeliverTimer(env, cfg, Recheck(cfg, Run(env, cfg, Open(cfg, start), before), r), r);
    }
  }

  /** A session opened before a ban that stays in force from `from`: nothing of
      a read at or after `from` plus the recheck interval goes upstream. If the
      session was still alive it is cut as banned, with one Close. */
  lemma BanBitesOnTime(env: Env, cfg: Cfg, start: int, rs: seq<Read>, states: seq<St>, from: int, k: nat)
    requires History(env, cfg, Open(cfg, start), rs, states)
    requires cfg.banOn && start < from && BannedFrom(rs, from)
    requires k < |rs| && rs[k].now >= from && rs[k].now >= from + cfg.banRecheck * 1000
    ensures var before, after := states[k], states[k + 1];
            before.mode != Plain ==>
              && after.killed && after.accepted == before.accepted && !(after.eof && !before.eof)
              && after.sends == (if before.killed then before.sends else before.sends + [CloseFrame(Banned, true)])
              && (!before.killed ==> after.verdict == Some(Banned))
  {
    hide Deliver, Run, Open, NoticeFrame, CloseFrame;
    HistoryRuns(env, cfg, Open(cfg, start), rs, states, k);
    NextCheckComesSoon(env, cfg, start, rs[..k], from);
  }

  /** Where the answer to a ban check comes from: what the worker had looked at
      before, and how far the ban commands had got on the banlist. */
  datatype Scene = Scene(looks: seq<BanCache.Look>, steps: seq<BanFile.Step>, mtime: int, size: nat)

  ghost predicate Answered(content: (string, int, nat) -> seq<BanCache.Line>, s: BanFile.System,
                           path: string, ip: string, r: Read, w: Scene) {
    && (forall i :: 0 <= i < |w.looks| ==> BanCache.Determined(content, w.looks[i]))
    && BanFile.Legal(s, w.steps) && r.now / 1000 == BanFile.Exec(s, w.steps).clock
    && (var file := BanFile.Exec(s, w.steps).file;
        && (file.Some? ==> content(path, w.mtime, w.size) == BanCache.Written(file))
        && r.banned == BanCache.Cuts(
             BanCache.Load(BanCache.After(w.looks), path, BanCache.DiskOf(file, w.mtime, w.size)).bans, ip, r.now))
  }

  lemma AnsweredByCommands(content: (string, int, nat) -> seq<BanCache.Line>, s: BanFile.System,
                           path: string, ip: string, r: Read, w: Scene)
    requires BanFile.Init(s) && Answered(content, s, path, ip, r, w)
    ensures BanFile.Legal(s, w.steps) && r.banned == BanSpec.Banned(BanFile.Bans(s, w.steps), ip, r.now / 1000)
  {
    hide BanFile.Legal, BanFile.Exec, BanFile.Bans, BanCache.After, BanCache.Cuts, BanCache.Load;
    BanCache.WorkerEnforcesTheBans(content, w.looks, s, w.steps, path, w.mtime, w.size, ip, r.now);
  }

  /** End to end: if the ban commands put the client's address in force by `from`
      and keep it there, its session is cut by the first read that comes the
      recheck interval later, through whatever files and caches the ban went. */
  lemma CommandsCutSessions(env: Env, cfg: Cfg, start: int, rs: seq<Read>, states: seq<St>, from: int, k: nat,
                            content: (string, int, nat) -> seq<BanCache.Line>, s: BanFile.System,
                            path: string, ip: string, scenes: seq<Scene>)
    requires History(env, cfg, Open(cfg, start), rs, states)
    requires cfg.banOn && start < from
    requires BanFile.Init(s) && |scenes| == |rs|
    requires forall i :: 0 <= i < |rs| ==>
               && Answered(content, s, path, ip, rs[i], scenes[i])
               && (rs[i].now >= from ==> BanSpec.Banned(BanFile.Bans(s, scenes[i].steps), ip, rs[i].now / 1000))
    requires k < |rs| && rs[k].now >= from && rs[k].now >= from + cfg.banRecheck * 1000
    ensures var before, after := states[k], states[k + 1];
            before.mode != Plain ==>
              && after.killed && after.accepted == before.accepted && !(after.eof && !before.eof)
              && after.sends == (if before.killed then before.sends else before.sends + [CloseFrame(Banned, true)])
              && (!before.killed ==> after.verdict == Some(Banned))
  {
    hide OnData, Open, NoticeFrame, CloseFrame, Answered;
    forall i | 0 <= i < |rs| && rs[i].now >= from ensures rs[i].banned {
      AnsweredByCommands(content, s, path, ip, rs[i], scenes[i]);
    }
    BanBitesOnTime(env, cfg, start, rs, states, from, k);
  }

  /** And nothing ever follows: a cut session sends no more. */
  lemma {:induction false} CutForGood(env: Env, cfg: Cfg, st: St, rs: seq<Read>)
    requires st.killed
    ensures Run(env, cfg, st, rs) == st
  {
    if rs != [] { CutForGood(env, cfg, st, rs[..|rs| - 1]); }
  }
}
