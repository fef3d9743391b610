/** What every run keeps about the bytes: nothing is lost, reordered or let
    through early, the relay sees what was inspected, and memory is bounded. */
module StreamInvariants {
  import opened Wrappers
  import opened Bytes
  import opened Policy
  import opened Frames
  import opened TokenBucket
  import opened Engine
  import Relay
  import Agreement

  function Bodies(log: seq<Accepted>): seq<Bytes> {
    seq(|log|, i requires 0 <= i < |log| => log[i].body)
  }

  /** What has left a session: the calls upstream, whether and why it was cut,
      and the messages that passed. */
  datatype Sent = Sent(sends: seq<Bytes>, killed: bool, verdict: Option<Rule>, accepted: seq<Accepted>) {
    predicate Opened() {
      |sends| >= if killed then 2 else 1
    }

    /** Frames let through after the handshake, without the injected Close. */
    function Frames(): seq<Bytes>
      requires Opened()
    {
      if killed then sends[1..|sends| - 1] else sends[1..]
    }

    /** What went upstream is a prefix of what came in, cut at a message end:
        a receiver gets exactly the inspected messages out of it. */
    ghost predicate Sound(head: Bytes, body: Bytes) {
      && Opened()
      && sends[0] == head
      && (killed ==> verdict.Some? && sends[|sends| - 1] == CloseFrame(verdict.value, true))
      && Flatten(Frames()) <= body
      && Relay.Receive(Relay.START, Flatten(Frames())) == (Relay.Reading(Bodies(accepted), None), [])
    }
  }

  function SentBy(st: St): Sent {
    Sent(st.sends, st.killed, st.verdict, st.accepted)
  }

  function Forwarded(st: St): seq<Bytes>
    requires SentBy(st).Opened()
  {
    SentBy(st).Frames()
  }

  ghost predicate Sound(st: St, head: Bytes, body: Bytes) {
    SentBy(st).Sound(head, body)
  }

  function Partial(st: St): Option<Bytes> {
    if st.inMsg then Some(Flatten(st.msgParts)) else None
  }

  /** Everything taken in as whole frames: let through or held. */
  function SoFar(st: St): Bytes
    requires SentBy(st).Opened()
  {
    Flatten(Forwarded(st)) + Flatten(st.pending)
  }

  /** What is held back continues it without a gap. */
  ghost predicate InFlight(st: St, body: Bytes)
    requires !st.killed && |st.sends| >= 1
  {
    && SoFar(st) + Unparsed(st) == body
    && Relay.Receive(Relay.START, SoFar(st)) == (Relay.Reading(Bodies(st.accepted), Partial(st)), [])
  }

  function AtLeastZero(x: int): nat { if x < 0 then 0 else x }

  /** Bounds on what is held back. */
  predicate Held(cfg: Cfg, st: St) {
    && |st.pending| <= MAX_PENDING_FRAMES
    && |st.msgParts| <= MAX_FRAGMENTS
    && st.msgLen == Total(st.msgParts) <= AtLeastZero(cfg.maxMsg)
    && Total(st.pending) <= 139 * |st.pending| + st.msgLen
    && (!st.inMsg ==> st.pending == [] && st.msgParts == [])
  }

  /** Nothing more can be parsed yet, and `need` says why. */
  predicate Stalled(cfg: Cfg, st: St) {
    NextFrame(Unparsed(st), st.inMsg, st.msgLen, cfg.maxMsg) == Wait(st.need)
  }

  ghost predicate Pumping(cfg: Cfg, st: St, head: Bytes, body: Bytes) {
    && Sound(st, head, body)
    && st.chunks == [] && st.pendingLen == 0
    && (!st.killed ==> InFlight(st, body) && Held(cfg, st))
  }

  lemma ViolateKeepsSound(st: St, rule: Rule, head: Bytes, body: Bytes)
    requires !st.killed && Sound(st, head, body)
    ensures Sound(Violate(st, rule), head, body)
  {
    assert Forwarded(Violate(st, rule)) == Forwarded(st);
  }

  /** Inspection either closes the session or logs the message; apart from
      that it only touches the buckets and the subscriptions. */
  ghost predicate Outcome(st: St, r: St, now: int, buf: Bytes) {
    var st' := st.(bMsg := r.bMsg, bEvent := r.bEvent, bReq := r.bReq);
    if r.killed then r.verdict.Some? && r == Violate(st', r.verdict.value)
    else r == Accept(st'.(subs := r.subs, subCount := r.subCount), now, buf)
  }

  lemma EventOutcome(env: Env, cfg: Cfg, st: St, now: int, buf: Bytes, ev: Value)
    requires !st.killed
    ensures Outcome(st, InspectEvent(env, cfg, st, now, buf, ev), now, buf)
  {
    hide AfterTake, Affordable, Get, NoticeFrame, CloseFrame;
  }

  lemma QueryOutcome(cfg: Cfg, st: St, now: int, buf: Bytes, id: Value, filters: seq<Value>, opens: bool)
    requires !st.killed
    ensures Outcome(st, InspectQuery(cfg, st, now, buf, id, filters, opens), now, buf)
  {
    hide FiltersFault, AfterTake, Affordable, NoticeFrame, CloseFrame;
  }

  lemma InspectOutcome(env: Env, cfg: Cfg, st: St, now: int, buf: Bytes)
    requires !st.killed
    ensures Outcome(st, Inspect(env, cfg, st, now, buf), now, buf)
  {
    hide InspectEvent, InspectQuery, AfterTake, Affordable, NoticeFrame, CloseFrame;
    var st' := st.(bMsg := AfterTake(st.bMsg, now));
    if Affordable(st.bMsg, now) && NostrMessage(env.parse(buf)) && env.parse(buf).value.items[0].s in cfg.types {
      var msg := env.parse(buf).value.items;
      var t := msg[0].s;
      if t == "EVENT" {
        EventOutcome(env, cfg, st', now, buf, Arg(msg, 1));
      } else if t == "REQ" || t == "COUNT" {
        QueryOutcome(cfg, st', now, buf, Arg(msg, 1), if |msg| >= 2 then msg[2..] else [], t == "REQ");
      } else if t == "NEG-OPEN" {
        QueryOutcome(cfg, st', now, buf, Arg(msg, 1), [Arg(msg, 2)], true);
      }
    }
  }

  lemma FlushKeeps(st: St, head: Bytes, body: Bytes)
    requires !st.killed && |st.sends| >= 1 && st.sends[0] == head
    requires InFlight(st, body) && !st.inMsg
    ensures Sound(Flush(st), head, body) && InFlight(Flush(st), body)
  {
    var r := Flush(st);
    assert Forwarded(r) == Forwarded(st) + st.pending;
    FlattenAppend(Forwarded(st), st.pending);
    assert Flatten(Forwarded(r)) + Flatten([]) == Flatten(Forwarded(r));
  }

  /** One more whole frame at the end of what a receiver has taken in. */
  lemma ReceiveTaken(s: Relay.State, sofar: Bytes, acc: Bytes, inMsg: bool, msgLen: nat, maxMsg: int)
    requires NextFrame(acc, inMsg, msgLen, maxMsg).Take? && Relay.Receive(Relay.START, sofar) == (s, [])
    ensures var n := NextFrame(acc, inMsg, msgLen, maxMsg);
            Relay.Receive(Relay.START, sofar + acc[..n.End()])
              == (Relay.Absorb(s, Relay.Frame(n.fin, 0, n.op, true, Payload(acc, n))), [])
  {
    var raw := acc[..NextFrame(acc, inMsg, msgLen, maxMsg).End()];
    Agreement.SameFrame(acc, inMsg, msgLen, maxMsg);
    Relay.ReceiveAppend(Relay.START, sofar, raw);
    Agreement.OneFrame(s, raw);
  }

  /** What admission has checked about a taken frame. */
  lemma Admitted(acc: Bytes, inMsg: bool, msgLen: nat, maxMsg: int)
    requires NextFrame(acc, inMsg, msgLen, maxMsg).Take?
    ensures var n := NextFrame(acc, inMsg, msgLen, maxMsg);
            if IsControl(n.op) then n.fin && n.len <= 125 && n.End() <= 139
            else n.op == (if inMsg then OP_CONT else OP_TEXT) && n.End() <= 14 + n.len && msgLen + n.len <= maxMsg
  {
  }

  lemma AbsorbControl(s: Relay.State, op: byte, payload: Bytes)
    requires IsControl(op) && |payload| <= 125
    ensures Relay.Absorb(s, Relay.Frame(true, 0, op, true, payload)) == s
  {
  }

  lemma AbsorbData(done: seq<Bytes>, parts: seq<Bytes>, inMsg: bool, fin: bool, payload: Bytes)
    requires !inMsg ==> parts == []
    ensures var whole := Flatten(parts + [payload]);
            Relay.Absorb(Relay.Reading(done, if inMsg then Some(Flatten(parts)) else None),
                         Relay.Frame(fin, 0, if inMsg then OP_CONT else OP_TEXT, true, payload))
              == (if fin then Relay.Reading(done + [whole], None) else Relay.Reading(done, Some(whole)))
  {
    FlattenOne(parts, payload);
    assert [] + payload == payload;
  }

  function Hold(st: St, n: Next): St
    requires n.Take? && n.End() <= |st.acc|
  {
    st.(need := 2, acc := st.acc[n.End()..], pending := st.pending + [st.acc[..n.End()]])
  }

  /** Taking a frame off `acc` moves it, whole, behind the pending ones. */
  lemma HoldFrame(cfg: Cfg, st: St, n: Next, head: Bytes, body: Bytes)
    requires Pumping(cfg, st, head, body) && !st.killed && n == NextOf(cfg, st) && n.Take?
    ensures var held := Hold(st, n);
            && Sound(held, head, body)
            && SoFar(held) + held.acc == body
            && SoFar(held) == SoFar(st) + st.acc[..n.End()]
  {
    assert SentBy(Hold(st, n)) == SentBy(st);
    assert Unparsed(st) == st.acc;
    OneMoreFrame(Flatten(Forwarded(st)), st.pending, st.acc, n.End());
  }

  lemma OneMoreFrame(sent: Bytes, pending: seq<Bytes>, acc: Bytes, end: nat)
    requires end <= |acc|
    ensures sent + Flatten(pending + [acc[..end]]) == sent + Flatten(pending) + acc[..end]
    ensures sent + Flatten(pending + [acc[..end]]) + acc[end..] == sent + Flatten(pending) + acc
  {
    FlattenOne(pending, acc[..end]);
    assert acc[..end] + acc[end..] == acc;
  }

  /** A message whose last fragment is in, held but not yet inspected. */
  ghost predicate Complete(st: St, head: Bytes, body: Bytes) {
    && !st.killed && Sound(st, head, body) && st.chunks == [] && st.pendingLen == 0 && !st.inMsg
    && SoFar(st) + st.acc == body
    && Relay.Receive(Relay.START, SoFar(st))
         == (Relay.Reading(Bodies(st.accepted) + [Flatten(st.msgParts)], None), [])
  }

  lemma FinishMessageKeeps(env: Env, cfg: Cfg, st: St, now: int, head: Bytes, body: Bytes)
    requires Complete(st, head, body)
    ensures Pumping(cfg, FinishMessage(env, cfg, st, now), head, body)
  {
    var reset := st.(msgParts := [], msgLen := 0, msgReads := 0);
    var msg := Flatten(st.msgParts);
    var r := Inspect(env, cfg, reset, now, msg);
    InspectOutcome(env, cfg, reset, now, msg);
    if r.killed {
      var priced := reset.(bMsg := r.bMsg, bEvent := r.bEvent, bReq := r.bReq);
      assert Forwarded(priced) == Forwarded(st);
      ViolateKeepsSound(priced, r.verdict.value, head, body);
    } else {
      assert Bodies(r.accepted) == Bodies(st.accepted) + [msg];
      assert Forwarded(r) == Forwarded(st);
      assert st.acc + Flatten([]) == st.acc;
      FlushKeeps(r, head, body);
    }
  }

  lemma FragmentKeeps(env: Env, cfg: Cfg, st: St, now: int, n: Next, head: Bytes, body: Bytes)
    requires Pumping(cfg, st, head, body) && !st.killed && n == NextOf(cfg, st) && n.Take? && !IsControl(n.op)
    requires |Hold(st, n).pending| <= MAX_PENDING_FRAMES
    ensures Pumping(cfg, Fragment(env, cfg, Hold(st, n), now, n.fin, n.len, Payload(st.acc, n)), head, body)
  {
    var held, payload := Hold(st, n), Payload(st.acc, n);
    var parts := st.msgParts + [payload];
    HoldFrame(cfg, st, n, head, body);
    if |parts| > MAX_FRAGMENTS {
      ViolateKeepsSound(held.(msgParts := parts), FrameFlood, head, body);
    } else {
      FragmentReceived(cfg, st, n);
      var grown := held.(msgParts := parts, msgLen := st.msgLen + n.len, inMsg := !n.fin);
      assert Sound(grown, head, body) && SoFar(grown) == SoFar(held);
      if n.fin {
        FinishMessageKeeps(env, cfg, grown, now, head, body);
      } else {
        FragmentHeld(cfg, st, n);
        assert Unparsed(grown) == grown.acc;
      }
    }
  }

  lemma FragmentReceived(cfg: Cfg, st: St, n: Next)
    requires !st.killed && |st.sends| >= 1 && n == NextOf(cfg, st) && n.Take? && !IsControl(n.op)
    requires Relay.Receive(Relay.START, SoFar(st)) == (Relay.Reading(Bodies(st.accepted), Partial(st)), [])
    requires !st.inMsg ==> st.msgParts == []
    ensures var whole := Flatten(st.msgParts + [Payload(st.acc, n)]);
            Relay.Receive(Relay.START, SoFar(st) + st.acc[..n.End()])
              == (if n.fin then Relay.Reading(Bodies(st.accepted) + [whole], None)
                  else Relay.Reading(Bodies(st.accepted), Some(whole)), [])
  {
    var payload := Payload(st.acc, n);
    Admitted(st.acc, st.inMsg, st.msgLen, cfg.maxMsg);
    ReceiveTaken(Relay.Reading(Bodies(st.accepted), Partial(st)), SoFar(st), st.acc, st.inMsg, st.msgLen, cfg.maxMsg);
    AbsorbData(Bodies(st.accepted), st.msgParts, st.inMsg, n.fin, payload);
  }

  lemma FragmentHeld(cfg: Cfg, st: St, n: Next)
    requires Held(cfg, st) && n == NextOf(cfg, st) && n.Take? && !IsControl(n.op)
    requires |st.msgParts| < MAX_FRAGMENTS && |st.pending| < MAX_PENDING_FRAMES
    ensures Held(cfg, Hold(st, n).(msgParts := st.msgParts + [Payload(st.acc, n)],
                                   msgLen := st.msgLen + n.len, inMsg := true))
  {
    Admitted(st.acc, st.inMsg, st.msgLen, cfg.maxMsg);
    TotalOne(st.msgParts, Payload(st.acc, n));
    TotalOne(st.pending, st.acc[..n.End()]);
  }

  lemma ControlKeeps(cfg: Cfg, st: St, n: Next, head: Bytes, body: Bytes)
    requires Pumping(cfg, st, head, body) && !st.killed && n == NextOf(cfg, st) && n.Take? && IsControl(n.op)
    requires |Hold(st, n).pending| <= MAX_PENDING_FRAMES
    ensures Pumping(cfg, if st.inMsg then Hold(st, n) else Flush(Hold(st, n)), head, body)
  {
    var held := Hold(st, n);
    HoldFrame(cfg, st, n, head, body);
    Admitted(st.acc, st.inMsg, st.msgLen, cfg.maxMsg);
    TotalOne(st.pending, st.acc[..n.End()]);
    AbsorbControl(Relay.Reading(Bodies(st.accepted), Partial(st)), n.op, Payload(st.acc, n));
    ReceiveTaken(Relay.Reading(Bodies(st.accepted), Partial(st)), SoFar(st), st.acc, st.inMsg, st.msgLen, cfg.maxMsg);
    assert Unparsed(held) == held.acc;
    assert InFlight(held, body);
    if !st.inMsg { FlushKeeps(held, head, body); }
  }

  lemma TakeFrameKeeps(env: Env, cfg: Cfg, st: St, now: int, head: Bytes, body: Bytes)
    requires Pumping(cfg, st, head, body) && !st.killed && NextOf(cfg, st).Take?
    ensures Pumping(cfg, TakeFrame(env, cfg, st, now), head, body)
  {
    var n := NextOf(cfg, st);
    var held := Hold(st, n);
    if |held.pending| > MAX_PENDING_FRAMES {
      HoldFrame(cfg, st, n, head, body);
      ViolateKeepsSound(held, FrameFlood, head, body);
    } else if IsControl(n.op) {
      ControlKeeps(cfg, st, n, head, body);
    } else {
      FragmentKeeps(env, cfg, st, now, n, head, body);
    }
  }

  lemma {:induction false} PumpKeeps(env: Env, cfg: Cfg, st: St, now: int, head: Bytes, body: Bytes)
    requires Pumping(cfg, st, head, body)
    ensures var r := Pump(env, cfg, st, now);
            Pumping(cfg, r, head, body) && (!r.killed ==> Stalled(cfg, r)) && r.mode == st.mode && r.hs == st.hs
    decreases |st.acc|
  {
    if !st.killed {
      match NextOf(cfg, st)
      case Wait(_) =>
        assert Unparsed(st) == st.acc;
      case Reject(rule) =>
        ViolateKeepsSound(st, rule, head, body);
      case Take(_, _, _, _) =>
        TakeFrameKeeps(env, cfg, st, now, head, body);
        TakeFrameLeaves(env, cfg, st, now);
        PumpKeeps(env, cfg, TakeFrame(env, cfg, st, now), now, head, body);
    }
  }

  lemma TakeFrameLeaves(env: Env, cfg: Cfg, st: St, now: int)
    requires !st.killed && NextOf(cfg, st).Take?
    ensures var r := TakeFrame(env, cfg, st, now);
            r.mode == st.mode && r.hs == st.hs && r.banCheckAt == st.banCheckAt
  {
    hide Inspect, Flatten, NextFrame, Payload, NoticeFrame, CloseFrame;
    var n := NextOf(cfg, st);
    var held := st.(need := 2, acc := st.acc[n.End()..], pending := st.pending + [st.acc[..n.End()]]);
    var grown := held.(msgParts := [], msgLen := 0, inMsg := !n.fin, msgReads := 0);
    InspectOutcome(env, cfg, grown, now, Flatten(st.msgParts + [Payload(st.acc, n)]));
  }
}
