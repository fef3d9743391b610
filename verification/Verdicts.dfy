/** Why a session is cut, who is told what about it, and how its reads are
    counted on the way. */
module Verdicts {
  import opened Wrappers
  import opened Bytes
  import opened Policy
  import opened Frames
  import opened Handshake
  import opened TokenBucket
  import opened Engine
  import opened StreamInvariants
  import opened Ledger
  import Relay
  import Agreement

  // ---- What the injected frames say ----

  function Chars(b: Bytes): string {
    seq(|b|, i requires 0 <= i < |b| => b[i] as char)
  }

  lemma CharsOfAscii(s: string)
    requires forall i :: 0 <= i < |s| ==> s[i] as int < 128
    ensures Chars(Ascii(s)) == s
  {
  }

  /** The names the two sides see. */
  lemma RuleNames()
    ensures RuleText(MsgRate) == "msg-rate" && RuleText(EventRate) == "event-rate" && RuleText(ReqRate) == "req-rate"
    ensures RuleText(Malformed) == "malformed" && RuleText(TypeNotAllowed) == "type-not-allowed"
    ensures RuleText(KindDenied) == "kind-denied" && RuleText(FilterComplexity) == "filter-complexity"
    ensures RuleText(TooManySubs) == "too-many-subs" && RuleText(Protocol) == "protocol"
    ensures RuleText(BinaryFrame) == "binary-frame" && RuleText(OversizedMessage) == "oversized-message"
    ensures RuleText(FrameFlood) == "frame-flood" && RuleText(OversizedHandshake) == "oversized-handshake"
    ensures RuleText(Banned) == "banned"
  {
  }

  lemma NamesAreAscii(rule: Rule)
    ensures forall i :: 0 <= i < |RuleText(rule)| ==> RuleText(rule)[i] as int < 128
  {
  }

  /** A receiver takes the whole of `b` for one final frame. */
  predicate IsFrame(b: Bytes, op: byte, masked: bool, payload: Bytes) {
    Relay.FirstFrame(b) == Some((Relay.Frame(true, 0, op, masked, payload), |b|))
  }

  /** A Close with status 1008 and a reason. */
  ghost predicate SaysClose(b: Bytes, masked: bool, reason: string) {
    exists payload: Bytes :: IsFrame(b, 8, masked, payload)
      && |payload| >= 2 && payload[0] as int * 256 + payload[1] as int == 1008 && Chars(payload[2..]) == reason
  }

  /** A text message to the client: a NOTICE that gives the reason. */
  ghost predicate SaysNotice(b: Bytes, reason: string) {
    exists payload: Bytes :: IsFrame(b, 1, false, payload)
      && Chars(payload) == "[\"NOTICE\",\"fips-shield: connection closed: " + reason + "\"]"
  }

  lemma CloseSays(rule: Rule, masked: bool)
    ensures SaysClose(CloseFrame(rule, masked), masked, RuleText(rule))
  {
    var payload := [0x03, 0xf0] + Ascii(RuleText(rule));
    NamesAreAscii(rule);
    hide RuleText, Ascii, Relay.FirstFrame, WsFrame;
    CharsOfAscii(RuleText(rule));
    Agreement.InjectedFrameReadsBack(8, payload, masked);
    assert IsFrame(CloseFrame(rule, masked), 8, masked, payload);
    assert payload[2..] == Ascii(RuleText(rule));
  }

  lemma NoticeSays(rule: Rule)
    ensures SaysNotice(NoticeFrame(rule), RuleText(rule))
  {
    var text := NoticeText(rule);
    NamesAreAscii(rule);
    HeadIsAscii();
    hide RuleText, Ascii, Relay.FirstFrame, WsFrame;
    assert forall i :: 0 <= i < |text| ==> text[i] as int < 128;
    CharsOfAscii(text);
    Agreement.InjectedFrameReadsBack(1, Ascii(text), false);
    assert IsFrame(NoticeFrame(rule), 1, false, Ascii(text));
  }

  lemma HeadIsAscii()
    ensures forall i :: 0 <= i < |NOTICE_HEAD| ==> NOTICE_HEAD[i] as int < 128
  {
  }

  // ---- Frames ----

  /** The rule against the frame at the front of `acc`, by what its header says;
      none while the length field is incomplete. */
  function FrameFault(acc: Bytes, inMsg: bool, msgLen: nat, maxMsg: int): Option<Rule> {
    if |acc| < 2 then None
    else if acc[0] / 16 % 8 != 0 || acc[1] / 128 == 0 then Some(Protocol)
    else
      match Relay.LengthField(acc)
      case None => None
      case Some((len, _)) =>
        var op := acc[0] % 16;
        if len >= 0x1_0000_0000 then Some(OversizedMessage)
        else if op >= 8 then if acc[0] / 128 == 0 || len > 125 then Some(Protocol) else None
        else if op == 2 then Some(BinaryFrame)
        else if op != (if inMsg then 0 else 1) then Some(Protocol)
        else if msgLen + len > maxMsg then Some(OversizedMessage)
        else None
  }

  /** A frame is refused, and under which rule, for just those reasons. */
  lemma RefusedForCause(acc: Bytes, inMsg: bool, msgLen: nat, maxMsg: int)
    ensures var n := NextFrame(acc, inMsg, msgLen, maxMsg);
            FrameFault(acc, inMsg, msgLen, maxMsg) == if n.Reject? then Some(n.rule) else None
  {
    hide Relay.BigEndian;
    if |acc| >= 4 && acc[1] % 0x80 == 126 { Agreement.BigEndianU16(acc, 2); }
    if |acc| >= 10 && acc[1] % 0x80 == 127 { Agreement.BigEndianU64(acc); }
  }

  /** The session with the frame held and its message complete. */
  function Complete(st: St, n: Next): St
    requires n.Take? && n.End() <= |st.acc|
  {
    Hold(st, n).(msgParts := [], msgLen := 0, inMsg := false, msgReads := 0)
  }

  /** Taking a frame cuts the session exactly when it is one held frame, or one
      fragment, too many, or completes a message that inspection refuses. */
  lemma FrameCut(env: Env, cfg: Cfg, st: St, now: int)
    requires !st.killed && NextOf(cfg, st).Take?
    ensures var n, r := NextOf(cfg, st), TakeFrame(env, cfg, st, now);
            var parts := st.msgParts + [Payload(st.acc, n)];
            var judged := Inspect(env, cfg, Complete(st, n), now, Flatten(parts));
            var flood := |st.pending| >= 256 || (n.op < 8 && |st.msgParts| >= 64);
            && (r.killed <==> flood || (n.op < 8 && n.fin && judged.killed))
            && (flood ==> r.verdict == Some(FrameFlood))
            && (!flood && n.op < 8 && n.fin ==> r.verdict == judged.verdict)
  {
    hide Inspect, NextFrame, Payload, Flatten, NoticeFrame, CloseFrame;
    var n := NextOf(cfg, st);
    InspectOutcome(env, cfg, Complete(st, n), now, Flatten(st.msgParts + [Payload(st.acc, n)]));
  }

  // ---- Messages ----

  /** The event has a kind, and it is a number. */
  predicate HasKind(ev: Value) {
    ev.Obj? && exists i :: 0 <= i < |ev.fields| && Reads(ev.fields, i, "kind") && ev.fields[i].value.Num?
  }

  predicate IsQuery(env: Env, body: Bytes) {
    TypeOf(env, body) == "REQ" || TypeOf(env, body) == "COUNT" || TypeOf(env, body) == "NEG-OPEN"
  }

  /** The filters of a query: all that follow the name, or just one. */
  function FiltersOf(env: Env, body: Bytes): seq<Value>
    requires IsMessage(env, body) && |Parts(env, body)| >= 2
  {
    var msg := Parts(env, body);
    if TypeOf(env, body) != "NEG-OPEN" then msg[2..]
    else if |msg| >= 3 then [msg[2]]
    else [Undefined]
  }

  /** In a list of admissible length, the first offending filter is no object. */
  predicate FirstOffenderNoObject(cfg: Cfg, filters: seq<Value>) {
    1 <= |filters| <= cfg.maxFilters && exists i :: 0 <= i < |filters| && NoObjectFirst(cfg, filters, i)
  }

  predicate NoObjectFirst(cfg: Cfg, filters: seq<Value>, i: nat)
    requires i < |filters|
  {
    !filters[i].Obj? && forall j :: 0 <= j < i ==> FilterConforms(cfg, filters[j])
  }

  /** The rule against a message, in the order the rules are applied. */
  function Cause(env: Env, cfg: Cfg, st: St, now: int, body: Bytes): Option<Rule> {
    if !Affordable(st.bMsg, now) then Some(MsgRate)
    else if !IsMessage(env, body) then Some(Malformed)
    else if TypeOf(env, body) !in cfg.types then Some(TypeNotAllowed)
    else if InLane(env, Publishing, body) && !Affordable(st.bEvent, now) then Some(EventRate)
    else if InLane(env, Querying, body) && !Affordable(st.bReq, now) then Some(ReqRate)
    else
      var msg := Parts(env, body);
      if TypeOf(env, body) == "EVENT" then
        if |msg| < 2 || !HasKind(msg[1]) then Some(Malformed)
        else if !EventConforms(env, cfg, msg[1]) then Some(KindDenied)
        else None
      else if IsQuery(env, body) then
        if !NamesSubscription(msg) then Some(Malformed)
        else if FirstOffenderNoObject(cfg, FiltersOf(env, body)) then Some(Malformed)
        else if !FiltersConform(cfg, FiltersOf(env, body)) then Some(FilterComplexity)
        else if !RoomFor(env, cfg, st.subs, st.subCount, body) then Some(TooManySubs)
        else None
      else None
  }

  lemma {:induction false} FirstFaultRule(cfg: Cfg, filters: seq<Value>)
    ensures FirstFault(cfg, filters) == Some(Malformed)
       <==> exists i :: 0 <= i < |filters| && NoObjectFirst(cfg, filters, i)
    ensures FirstFault(cfg, filters) in {None, Some(Malformed), Some(FilterComplexity)}
  {
    hide FilterConforms;
    if filters != [] {
      FirstFaultRule(cfg, filters[1..]);
      if !filters[0].Obj? {
        assert NoObjectFirst(cfg, filters, 0);
      } else if FilterConforms(cfg, filters[0]) {
        forall i | 0 <= i < |filters[1..]| ensures NoObjectFirst(cfg, filters[1..], i) == NoObjectFirst(cfg, filters, i + 1) {
          assert forall j :: 1 <= j < i + 1 ==> filters[j] == filters[1..][j - 1];
        }
        if i :| 0 <= i < |filters| && NoObjectFirst(cfg, filters, i) {
          assert NoObjectFirst(cfg, filters[1..], i - 1);
        }
      }
    }
  }

  lemma FiltersRule(cfg: Cfg, filters: seq<Value>)
    ensures FiltersFault(cfg, filters) ==
              if FirstOffenderNoObject(cfg, filters) then Some(Malformed)
              else if !FiltersConform(cfg, filters) then Some(FilterComplexity)
              else None
  {
    hide FilterConforms, NoObjectFirst;
    FirstFaultRule(cfg, filters);
    NoFirstFault(cfg, filters);
  }

  lemma KindGiven(ev: Value)
    ensures HasKind(ev) <==> EventBody(ev)
  {
    hide Reads;
    if ev.Obj? { GetFinds(ev.fields, "kind"); }
  }

  lemma EventCause(env: Env, cfg: Cfg, st: St, now: int, buf: Bytes, ev: Value)
    requires !st.killed
    ensures var r := InspectEvent(env, cfg, st, now, buf, ev);
            (if r.killed then r.verdict else None)
              == if !Affordable(st.bEvent, now) then Some(EventRate)
                 else if !HasKind(ev) then Some(Malformed)
                 else if !EventConforms(env, cfg, ev) then Some(KindDenied)
                 else None
  {
    hide AfterTake, Affordable, Get, HasKind, EventConforms, NoticeFrame, CloseFrame;
    KindGiven(ev);
    KindRead(env, cfg, ev);
  }

  lemma QueryCause(cfg: Cfg, st: St, now: int, buf: Bytes, id: Value, filters: seq<Value>, opens: bool)
    requires !st.killed
    ensures var r := InspectQuery(cfg, st, now, buf, id, filters, opens);
            (if r.killed then r.verdict else None)
              == if !Affordable(st.bReq, now) then Some(ReqRate)
                 else if !(id.Str? && 1 <= |id.s| <= 64) then Some(Malformed)
                 else if FirstOffenderNoObject(cfg, filters) then Some(Malformed)
                 else if !FiltersConform(cfg, filters) then Some(FilterComplexity)
                 else if opens && id.s !in st.subs && st.subCount >= cfg.maxSubs then Some(TooManySubs)
                 else None
  {
    hide AfterTake, Affordable, FiltersFault, FiltersConform, FirstOffenderNoObject, NoticeFrame, CloseFrame;
    FiltersRule(cfg, filters);
  }

  /** A message of an allowed type, with its place in the bucket of all paid. */
  predicate Admitted(env: Env, cfg: Cfg, st: St, now: int, body: Bytes) {
    Affordable(st.bMsg, now) && IsMessage(env, body) && TypeOf(env, body) in cfg.types
  }

  lemma TypedCause(env: Env, cfg: Cfg, st: St, now: int, body: Bytes)
    requires !st.killed && Admitted(env, cfg, st, now, body)
    ensures var r := Inspect(env, cfg, st, now, body);
            Cause(env, cfg, st, now, body) == if r.killed then r.verdict else None
  {
    hide InspectEvent, InspectQuery, AfterTake, Affordable, HasKind, EventConforms, FiltersConform,
      FirstOffenderNoObject, NoticeFrame, CloseFrame;
    var st' := st.(bMsg := AfterTake(st.bMsg, now));
    var msg, t := env.parse(body).value.items, TypeOf(env, body);
    if t == "EVENT" {
      EventCause(env, cfg, st', now, body, Arg(msg, 1));
      UndefinedHasNone(env, cfg);
    } else if t == "REQ" || t == "COUNT" {
      QueryCause(cfg, st', now, body, Arg(msg, 1), if |msg| >= 2 then msg[2..] else [], t == "REQ");
    } else if t == "NEG-OPEN" {
      QueryCause(cfg, st', now, body, Arg(msg, 1), [Arg(msg, 2)], true);
    }
  }

  /** Inspection refuses a message, and under which rule, for just those
      reasons. */
  lemma MessageRefusedForCause(env: Env, cfg: Cfg, st: St, now: int, body: Bytes)
    requires !st.killed
    ensures var r := Inspect(env, cfg, st, now, body);
            Cause(env, cfg, st, now, body) == if r.killed then r.verdict else None
  {
    hide Inspect, Cause, Admitted;
    if Admitted(env, cfg, st, now, body) {
      TypedCause(env, cfg, st, now, body);
    } else {
      NotAdmitted(env, cfg, st, now, body);
    }
  }

  lemma NotAdmitted(env: Env, cfg: Cfg, st: St, now: int, body: Bytes)
    requires !st.killed && !Admitted(env, cfg, st, now, body)
    ensures var r := Inspect(env, cfg, st, now, body);
            r.killed && Cause(env, cfg, st, now, body) == r.verdict
  {
    hide InspectEvent, InspectQuery, InspectClose, AfterTake, Affordable, HasKind, EventConforms, FiltersConform,
      FirstOffenderNoObject, NoticeFrame, CloseFrame, NamesSubscription, RoomFor, InLane;
  }

  lemma UndefinedHasNone(env: Env, cfg: Cfg)
    ensures !HasKind(Undefined)
  {
  }

  // ---- Reads ----

  /** The session as it enters the pump after an upgrade. */
  function Upgraded(env: Env, st: St, hs: Bytes, end: nat): St
    requires end <= |hs|
  {
    st.(hsReads := st.hsReads + 1, hsScanned := |hs|, hs := [], sends := st.sends + [env.recode(hs[..end])],
        mode := WebSocket, acc := hs[end..])
  }

  /** A read of the header block cuts the session exactly when it is one too many,
      makes the block too long, or completes it with a bare LF in it; past that,
      when the pump refuses what follows an upgrade. */
  lemma HandshakeCut(env: Env, cfg: Cfg, st: St, r: Read)
    requires !st.killed && st.mode == Handshaking
    ensures var st', hs := HandshakeRead(env, cfg, st, r), st.hs + r.data;
            var end := BlockEnd(hs, st.hsScanned - 2);
            if st.hsReads >= cfg.maxHsReads then st'.verdict == Some(Protocol) && st'.killed
            else if |hs| > 16384 then st'.verdict == Some(OversizedHandshake) && st'.killed
            else if end < 0 then !st'.killed
            else if BareLf(hs, end) then st'.verdict == Some(Protocol) && st'.killed
            else if !IsUpgrade(hs[..end]) then !st'.killed && st'.mode == Plain
            else (st'.mode == WebSocket && st'.killed == Pump(env, cfg, Upgraded(env, st, hs, end), r.now).killed)
  {
    hide Pump, BlockEnd, BareLf, IsUpgrade, NoticeFrame, CloseFrame;
    var hs := st.hs + r.data;
    var end := BlockEnd(hs, st.hsScanned - 2);
    if end >= 0 { PumpMode(env, cfg, Upgraded(env, st, hs, end), r.now); }
  }

  lemma {:induction false} PumpMode(env: Env, cfg: Cfg, st: St, now: int)
    ensures Pump(env, cfg, st, now).mode == st.mode
    decreases |st.acc|
  {
    hide TakeFrame, NextFrame, NoticeFrame, CloseFrame;
    if !st.killed && NextOf(cfg, st).Take? {
      TakeFrameLeaves(env, cfg, st, now);
      PumpMode(env, cfg, TakeFrame(env, cfg, st, now), now);
    }
  }

  /** Before the pump sees anything, a WebSocket read is refused exactly when it is
      one too many for its message. */
  lemma WebSocketCut(env: Env, cfg: Cfg, st: St, r: Read)
    requires !st.killed && st.mode == WebSocket
    ensures var st' := WebSocketRead(env, cfg, st, r);
            if st.msgReads >= cfg.maxMsgReads then st'.killed && st'.verdict == Some(FrameFlood)
            else if |st.acc| + st.pendingLen + |r.data| < st.need then !st'.killed
            else st'.killed == Pump(env, cfg, st.(msgReads := st.msgReads + 1, acc := st.acc + Flatten(st.chunks + [r.data]),
                                                  chunks := [], pendingLen := 0), r.now).killed
  {
    hide Pump, Flatten, NoticeFrame, CloseFrame;
  }

  // ---- What every step keeps ----

  /** A cut session has told the client twice; a live one has told it nothing. */
  predicate Told(st: St) {
    if st.killed then
      st.verdict.Some? && st.down == [NoticeFrame(st.verdict.value), CloseFrame(st.verdict.value, false)]
    else st.down == []
  }

  /** Whatever happens to a frame, the client is told only on a cut, and the count
      of reads is reset only by a message let through. */
  predicate Keeps(st: St, st': St) {
    Told(st) ==>
      && Told(st') && st'.hsReads == st.hsReads
      && (!st'.killed ==>
           && !st.killed && st.accepted <= st'.accepted
           && st'.msgReads == if st'.accepted == st.accepted then st.msgReads else 0)
  }

  lemma FragmentKept(env: Env, cfg: Cfg, st: St, now: int, fin: bool, len: nat, payload: Bytes)
    requires !st.killed
    ensures Keeps(st, Fragment(env, cfg, st, now, fin, len, payload))
  {
    hide Inspect, Flatten, NoticeFrame, CloseFrame;
    var whole := st.(msgParts := [], msgLen := 0, inMsg := !fin, msgReads := 0);
    InspectOutcome(env, cfg, whole, now, Flatten(st.msgParts + [payload]));
  }

  lemma TakeFrameKept(env: Env, cfg: Cfg, st: St, now: int)
    requires !st.killed && NextOf(cfg, st).Take?
    ensures Keeps(st, TakeFrame(env, cfg, st, now))
  {
    hide Fragment, NextFrame, Payload, NoticeFrame, CloseFrame;
    var n := NextOf(cfg, st);
    FragmentKept(env, cfg, Hold(st, n), now, n.fin, n.len, Payload(st.acc, n));
  }

  lemma {:induction false} PumpKept(env: Env, cfg: Cfg, st: St, now: int)
    ensures Keeps(st, Pump(env, cfg, st, now))
    decreases |st.acc|
  {
    hide TakeFrame, NextFrame, NoticeFrame, CloseFrame;
    if !st.killed {
      match NextOf(cfg, st)
      case Wait(_) =>
      case Reject(_) =>
      case Take(_, _, _, _) =>
        TakeFrameKept(env, cfg, st, now);
        PumpKept(env, cfg, TakeFrame(env, cfg, st, now), now);
    }
  }

  /** How one read is counted: against the header block while it is incomplete,
      against the message after an upgrade, until one is let through. */
  predicate Counts(cfg: Cfg, st: St, r: Read, st': St) {
    var hs, ws := st.mode == Handshaking && r.data != [], st.mode == WebSocket && r.data != [];
    && st'.hsReads == st.hsReads + (if hs then 1 else 0)
    && (hs ==> st'.hsReads <= cfg.maxHsReads)
    && st'.msgReads == (if st'.accepted != st.accepted then 0 else st.msgReads + if ws then 1 else 0)
    && (ws ==> st.msgReads + 1 <= cfg.maxMsgReads)
  }

  lemma ClassifyKept(env: Env, cfg: Cfg, st: St, r: Read, end: nat)
    requires !st.killed && end <= |st.hs|
    ensures Keeps(st, Classify(env, cfg, st, r, end))
  {
    hide Pump, BareLf, IsUpgrade, NoticeFrame, CloseFrame;
    PumpKept(env, cfg, st.(hs := [], sends := st.sends + [env.recode(st.hs[..end])],
                           mode := WebSocket, acc := st.hs[end..]), r.now);
  }

  lemma HandshakeKept(env: Env, cfg: Cfg, st: St, r: Read)
    requires !st.killed && st.mode == Handshaking && r.data != [] && Told(st)
    ensures var st' := HandshakeRead(env, cfg, st, r);
            Told(st') && (!st'.killed ==> Counts(cfg, st, r, st'))
  {
    hide Classify, BlockEnd, NoticeFrame, CloseFrame;
    var st3 := st.(hsReads := st.hsReads + 1, hs := st.hs + r.data, hsScanned := |st.hs + r.data|);
    var end := BlockEnd(st3.hs, st.hsScanned - 2);
    if end >= 0 { ClassifyKept(env, cfg, st3, r, end); }
  }

  lemma WebSocketKept(env: Env, cfg: Cfg, st: St, r: Read)
    requires !st.killed && st.mode == WebSocket && r.data != [] && Told(st)
    ensures var st' := WebSocketRead(env, cfg, st, r);
            Told(st') && (!st'.killed ==> Counts(cfg, st, r, st'))
  {
    hide Pump, Flatten, NoticeFrame, CloseFrame;
    var held := st.(msgReads := st.msgReads + 1, chunks := st.chunks + [r.data], pendingLen := st.pendingLen + |r.data|);
    PumpKept(env, cfg, held.(acc := Unparsed(held), chunks := [], pendingLen := 0), r.now);
  }

  lemma StepKept(env: Env, cfg: Cfg, st: St, r: Read)
    requires Told(st)
    ensures var st' := OnData(env, cfg, st, r);
            Told(st') && (!st'.killed ==> Counts(cfg, st, r, st'))
  {
    hide HandshakeRead, WebSocketRead, NoticeFrame, CloseFrame;
    if !st.killed && r.data != [] {
      var st' := Recheck(cfg, st, r);
      if !st'.killed {
        if st.mode == Handshaking { HandshakeKept(env, cfg, st', r); }
        if st.mode == WebSocket { WebSocketKept(env, cfg, st', r); }
      }
    }
  }

  lemma {:induction false} HistoryTold(env: Env, cfg: Cfg, start: int, rs: seq<Read>, states: seq<St>, k: nat)
    requires History(env, cfg, Open(cfg, start), rs, states) && k <= |rs|
    ensures Told(states[k])
  {
    hide NoticeFrame, CloseFrame;
    if k > 0 {
      assert states[k - 1 + 1] == OnData(env, cfg, states[k - 1], rs[k - 1]);
      hide OnData, Open;
      HistoryTold(env, cfg, start, rs, states, k - 1);
      StepKept(env, cfg, states[k - 1], rs[k - 1]);
    }
  }

  /** At every point of every session: a live one has been told nothing; a cut one
      has been sent one NOTICE and one Close that name the rule, and nothing
      more. */
  lemma ClientIsToldWhy(env: Env, cfg: Cfg, start: int, rs: seq<Read>, states: seq<St>, k: nat)
    requires History(env, cfg, Open(cfg, start), rs, states) && k <= |rs|
    ensures var st := states[k];
            if !st.killed then st.down == []
            else
              && st.verdict.Some? && |st.down| == 2
              && SaysNotice(st.down[0], RuleText(st.verdict.value))
              && SaysClose(st.down[1], false, RuleText(st.verdict.value))
  {
    hide OnData, Open, NoticeFrame, CloseFrame, RuleText, SaysNotice, SaysClose;
    HistoryTold(env, cfg, start, rs, states, k);
    if states[k].killed {
      NoticeSays(states[k].verdict.value);
      CloseSays(states[k].verdict.value, false);
    }
  }

  /** At every point of every session that has not been cut: each read has been
      counted, within its cap, and the count of a message starts again when a
      message has been let through. */
  lemma ReadsCounted(env: Env, cfg: Cfg, start: int, rs: seq<Read>, states: seq<St>, k: nat)
    requires History(env, cfg, Open(cfg, start), rs, states) && k < |rs| && !states[k + 1].killed
    ensures Counts(cfg, states[k], rs[k], states[k + 1])
  {
    HistoryTold(env, cfg, start, rs, states, k);
    StepKept(env, cfg, states[k], rs[k]);
    hide OnData, Counts;
    assert states[k + 1] == OnData(env, cfg, states[k], rs[k]);
  }

  /** So neither count is ever past its cap in a live session. */
  lemma {:induction false} ReadsCapped(env: Env, cfg: Cfg, start: int, rs: seq<Read>, states: seq<St>, k: nat)
    requires History(env, cfg, Open(cfg, start), rs, states) && k <= |rs| && !states[k].killed
    ensures 0 <= states[k].hsReads <= AtLeastZero(cfg.maxHsReads)
    ensures 0 <= states[k].msgReads <= AtLeastZero(cfg.maxMsgReads)
  {
    hide OnData, Open;
    if k == 0 {
      NothingCounted(cfg, start);
    } else {
      assert states[k - 1 + 1] == OnData(env, cfg, states[k - 1], rs[k - 1]);
      ReadsCounted(env, cfg, start, rs, states, k - 1);
      LiveBefore(env, cfg, rs, states, k - 1);
      ReadsCapped(env, cfg, start, rs, states, k - 1);
    }
  }

  lemma NothingCounted(cfg: Cfg, start: int)
    ensures Open(cfg, start).hsReads == 0 && Open(cfg, start).msgReads == 0
  {
  }

  lemma LiveBefore(env: Env, cfg: Cfg, rs: seq<Read>, states: seq<St>, k: nat)
    requires k < |rs| && |states| == |rs| + 1 && states[k + 1] == OnData(env, cfg, states[k], rs[k])
    ensures states[k].killed ==> states[k + 1].killed
  {
  }
}
