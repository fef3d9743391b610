/** Whole sessions: what the upstream receives against what the client sent. */
module Delivery {
  import opened Wrappers
  import opened Bytes
  import opened Policy
  import opened Frames
  import opened Handshake
  import opened Engine
  import opened StreamInvariants
  import Relay
  import Agreement

  /** The header block of `input` is complete and free of bare LFs. */
  predicate HeadersIn(input: Bytes) {
    BlockEnd(input, 0) >= 0 && !BareLf(input, BlockEnd(input, 0))
  }

  function Head(input: Bytes): Bytes
    requires HeadersIn(input)
  {
    input[..BlockEnd(input, 0)]
  }

  function Body(input: Bytes): Bytes
    requires HeadersIn(input)
  {
    input[BlockEnd(input, 0)..]
  }

  /** Held-back state of a live WebSocket session between two reads. */
  ghost predicate AtRest(cfg: Cfg, st: St, body: Bytes)
    requires !st.killed && |st.sends| >= 1
  {
    InFlight(st, body) && Held(cfg, st) && Stalled(cfg, st) && st.pendingLen == Total(st.chunks)
  }

  ghost predicate HandshakeInv(st: St, input: Bytes) {
    && Unopened(st)
    && if st.killed then st.verdict.Some? && st.sends == [CloseFrame(st.verdict.value, true)]
       else st.sends == [] && st.hs == input && st.hsScanned == |input| <= MAX_HANDSHAKE && BlockEnd(input, 0) == -1
  }

  ghost predicate WebSocketInv(env: Env, cfg: Cfg, st: St, input: Bytes) {
    && HeadersIn(input) && IsUpgrade(Head(input)) && st.hs == []
    && Sound(st, env.recode(Head(input)), Body(input))
    && (!st.killed ==> AtRest(cfg, st, Body(input)))
  }

  ghost predicate PlainInv(env: Env, st: St, input: Bytes) {
    && HeadersIn(input) && !IsUpgrade(Head(input)) && st.hs == []
    && !st.killed && st.accepted == []
    && |st.sends| >= 1 && st.sends[0] == env.recode(Head(input)) && Flatten(st.sends[1..]) == Body(input)
  }

  /** What holds after any sequence of reads carrying `input`. */
  ghost predicate Inv(env: Env, cfg: Cfg, st: St, input: Bytes) {
    match st.mode
    case Handshaking => HandshakeInv(st, input)
    case WebSocket => WebSocketInv(env, cfg, st, input)
    case Plain => PlainInv(env, st, input)
  }

  lemma HeadersStay(input: Bytes, data: Bytes)
    requires HeadersIn(input)
    ensures HeadersIn(input + data)
    ensures Head(input + data) == Head(input) && Body(input + data) == Body(input) + data
  {
    var end := BlockEnd(input, 0);
    BlockEndStands(input, data);
    forall i: nat | i < end ensures !BareLfAt(input + data, i) {
      assert !BareLfAt(input, i);
    }
  }

  lemma RecheckKeeps(env: Env, cfg: Cfg, st: St, r: Read, input: Bytes)
    requires !st.killed && Inv(env, cfg, st, input)
    ensures Inv(env, cfg, Recheck(cfg, st, r), input)
  {
    if RecheckDue(cfg, st, r.now) {
      var st' := st.(banCheckAt := r.now + cfg.banRecheck * 1000);
      if st.mode == WebSocket {
        assert Forwarded(st') == Forwarded(st);
        if r.banned {
          ViolateKeepsSound(st', Banned, env.recode(Head(input)), Body(input));
        }
      }
    }
  }

  lemma FinishKeeps(env: Env, cfg: Cfg, st: St, last: bool, input: Bytes)
    requires Inv(env, cfg, st, input)
    ensures Inv(env, cfg, Finish(st, last), input)
  {
    if st.mode == WebSocket {
      assert Forwarded(Finish(st, last)) == Forwarded(st);
    }
  }

  lemma JustOpened(cfg: Cfg, st: St, head: Bytes)
    requires !st.killed && st.sends == [head] && st.accepted == [] && st.chunks == [] && st.pendingLen == 0
    requires st.pending == [] && st.msgParts == [] && st.msgLen == 0 && !st.inMsg
    ensures Pumping(cfg, st, head, st.acc)
  {
    assert Forwarded(st) == [] && Bodies(st.accepted) == [];
    assert SoFar(st) + Unparsed(st) == st.acc;
  }

  /** Everything held while the headers are incomplete is the headers. */
  predicate Unopened(st: St) {
    && st.accepted == []
    && st.acc == [] && st.chunks == [] && st.pendingLen == 0
    && st.pending == [] && st.msgParts == [] && st.msgLen == 0 && !st.inMsg
  }

  lemma UpgradeKeeps(env: Env, cfg: Cfg, st: St, now: int, input: Bytes)
    requires st.mode == WebSocket && !st.killed && st.hs == [] && st.acc == []
    requires Unopened(st) && HeadersIn(input) && IsUpgrade(Head(input)) && st.sends == [env.recode(Head(input))]
    ensures var st' := Pump(env, cfg, st.(acc := Body(input)), now);
            st'.mode == WebSocket && WebSocketInv(env, cfg, st', input)
  {
    var open := st.(acc := Body(input));
    JustOpened(cfg, open, env.recode(Head(input)));
    PumpKeeps(env, cfg, open, now, env.recode(Head(input)), Body(input));
  }

  lemma ClassifyKeeps(env: Env, cfg: Cfg, st: St, r: Read, input: Bytes)
    requires st.mode == Handshaking && !st.killed && st.hs == input && st.sends == [] && Unopened(st)
    requires BlockEnd(input, 0) >= 0
    ensures Inv(env, cfg, Classify(env, cfg, st, r, BlockEnd(input, 0)), input)
  {
    if HeadersIn(input) {
      var sent := st.(hs := [], sends := st.sends + [env.recode(Head(input))]);
      assert sent.sends == [env.recode(Head(input))];
      if IsUpgrade(Head(input)) {
        UpgradeKeeps(env, cfg, sent.(mode := WebSocket), r.now, input);
        FinishKeeps(env, cfg, Pump(env, cfg, sent.(mode := WebSocket, acc := Body(input)), r.now), r.last, input);
      } else {
        var rest := Body(input);
        var open := sent.(mode := Plain, sends := if rest == [] then sent.sends else sent.sends + [rest]);
        assert Flatten(open.sends[1..]) == rest by {
          if rest != [] { assert open.sends[1..] == [rest] && Flatten([rest]) == rest + Flatten([]); }
        }
        FinishKeeps(env, cfg, open, r.last, input);
      }
    }
  }

  lemma HandshakeKeeps(env: Env, cfg: Cfg, st: St, r: Read, input: Bytes)
    requires st.mode == Handshaking && !st.killed && HandshakeInv(st, input)
    ensures Inv(env, cfg, HandshakeRead(env, cfg, st, r), input + r.data)
  {
    hide Classify, WebSocketInv, PlainInv;
    var st3 := st.(hsReads := st.hsReads + 1, hs := st.hs + r.data, hsScanned := |st.hs + r.data|);
    ResumedScanExact(input, r.data);
    if st3.hsReads <= cfg.maxHsReads && |st3.hs| <= MAX_HANDSHAKE && BlockEnd(st3.hs, 0) >= 0 {
      ClassifyKeeps(env, cfg, st3, r, input + r.data);
    }
  }

  lemma SegmentHeld(cfg: Cfg, st: St, data: Bytes)
    requires Stalled(cfg, st) && st.pendingLen == Total(st.chunks)
    ensures var st' := st.(chunks := st.chunks + [data], pendingLen := st.pendingLen + |data|);
            && Unparsed(st') == Unparsed(st) + data && st'.pendingLen == Total(st'.chunks)
            && |Unparsed(st')| == |st'.acc| + st'.pendingLen
            && (|Unparsed(st')| < st'.need ==> Stalled(cfg, st'))
  {
    FlattenOne(st.chunks, data);
    TotalOne(st.chunks, data);
    FlattenLength(st.chunks + [data]);
    assert Unparsed(st) + data == st.acc + Flatten(st.chunks + [data]);
    if |Unparsed(st) + data| < st.need {
      WaitStands(Unparsed(st), data, st.inMsg, st.msgLen, cfg.maxMsg);
    }
  }

  /** Reassembling the held segments loses nothing; then the pump runs. */
  lemma PumpSegments(env: Env, cfg: Cfg, st: St, r: Read, head: Bytes, body: Bytes)
    requires !st.killed && Sound(st, head, body) && InFlight(st, body) && Held(cfg, st)
    ensures var whole := st.(acc := Unparsed(st), chunks := [], pendingLen := 0);
            var st' := Pump(env, cfg, whole, r.now);
            && Sound(st', head, body) && (!st'.killed ==> AtRest(cfg, st', body))
            && st'.mode == st.mode && st'.hs == st.hs
  {
    var whole := st.(acc := Unparsed(st), chunks := [], pendingLen := 0);
    assert SentBy(whole) == SentBy(st);
    assert Unparsed(whole) == Unparsed(st);
    PumpKeeps(env, cfg, whole, r.now, head, body);
  }

  lemma InFlightGrows(st: St, st': St, data: Bytes, body: Bytes)
    requires !st.killed && |st.sends| >= 1 && InFlight(st, body)
    requires SentBy(st') == SentBy(st) && st'.pending == st.pending && Partial(st') == Partial(st)
    requires Unparsed(st') == Unparsed(st) + data
    ensures InFlight(st', body + data)
  {
    assert SoFar(st) + Unparsed(st) + data == SoFar(st') + Unparsed(st');
  }

  lemma ReadHeld(env: Env, cfg: Cfg, st: St, st': St, data: Bytes, input: Bytes)
    requires WebSocketInv(env, cfg, st, input) && !st.killed
    requires st' == st.(msgReads := st'.msgReads, chunks := st.chunks + [data], pendingLen := st.pendingLen + |data|)
    ensures var head, body := env.recode(Head(input)), Body(input) + data;
            && Sound(st', head, body) && InFlight(st', body) && Held(cfg, st') && st'.pendingLen == Total(st'.chunks)
            && |Unparsed(st')| == |st'.acc| + st'.pendingLen
            && (|Unparsed(st')| < st'.need ==> Stalled(cfg, st'))
  {
    SegmentHeld(cfg, st, data);
    assert SentBy(st') == SentBy(st);
    InFlightGrows(st, st', data, Body(input));
  }

  function WithSegment(st: St, data: Bytes): St {
    st.(msgReads := st.msgReads + 1, chunks := st.chunks + [data], pendingLen := st.pendingLen + |data|)
  }

  function Gathered(st: St, data: Bytes): St {
    var st' := WithSegment(st, data);
    st'.(acc := Unparsed(st'), chunks := [], pendingLen := 0)
  }

  lemma GatheredPumped(env: Env, cfg: Cfg, st: St, r: Read, input: Bytes)
    requires WebSocketInv(env, cfg, st, input) && !st.killed && st.mode == WebSocket
    ensures Inv(env, cfg, Pump(env, cfg, Gathered(st, r.data), r.now), input + r.data)
  {
    ReadHeld(env, cfg, st, WithSegment(st, r.data), r.data, input);
    HeadersStay(input, r.data);
    PumpSegments(env, cfg, WithSegment(st, r.data), r, env.recode(Head(input)), Body(input) + r.data);
  }

  lemma ReadIsPumped(env: Env, cfg: Cfg, st: St, r: Read)
    requires st.msgReads < cfg.maxMsgReads && |st.acc| + st.pendingLen + |r.data| >= st.need
    ensures WebSocketRead(env, cfg, st, r) == Finish(Pump(env, cfg, Gathered(st, r.data), r.now), r.last)
  {
    hide Pump, Finish, Violate, Flatten;
  }

  lemma ReadIsHeld(env: Env, cfg: Cfg, st: St, r: Read)
    requires st.msgReads < cfg.maxMsgReads && |st.acc| + st.pendingLen + |r.data| < st.need
    ensures WebSocketRead(env, cfg, st, r) == WithSegment(st, r.data)
  {
    hide Pump, Finish, Violate, Flatten;
  }

  lemma ReadPumped(env: Env, cfg: Cfg, st: St, r: Read, input: Bytes)
    requires WebSocketInv(env, cfg, st, input) && !st.killed && st.mode == WebSocket
    requires st.msgReads < cfg.maxMsgReads && |st.acc| + st.pendingLen + |r.data| >= st.need
    ensures Inv(env, cfg, WebSocketRead(env, cfg, st, r), input + r.data)
  {
    hide Pump, Inv, Finish, WebSocketRead, WebSocketInv, Gathered;
    ReadIsPumped(env, cfg, st, r);
    GatheredPumped(env, cfg, st, r, input);
    FinishKeeps(env, cfg, Pump(env, cfg, Gathered(st, r.data), r.now), r.last, input + r.data);
  }

  lemma ReadKept(env: Env, cfg: Cfg, st: St, r: Read, input: Bytes)
    requires WebSocketInv(env, cfg, st, input) && !st.killed && st.mode == WebSocket
    requires st.msgReads < cfg.maxMsgReads && |st.acc| + st.pendingLen + |r.data| < st.need
    ensures Inv(env, cfg, WebSocketRead(env, cfg, st, r), input + r.data)
  {
    hide Sound, InFlight, Stalled, Held, Unparsed, BlockEnd, BareLf, WebSocketRead, IsUpgrade;
    ReadIsHeld(env, cfg, st, r);
    ReadHeld(env, cfg, st, WithSegment(st, r.data), r.data, input);
    HeadersStay(input, r.data);
  }

  lemma ReadRefused(env: Env, cfg: Cfg, st: St, r: Read, input: Bytes)
    requires WebSocketInv(env, cfg, st, input) && !st.killed && st.mode == WebSocket
    requires st.msgReads >= cfg.maxMsgReads
    ensures Inv(env, cfg, WebSocketRead(env, cfg, st, r), input + r.data)
  {
    var st' := st.(msgReads := st.msgReads + 1);
    HeadersStay(input, r.data);
    assert SentBy(st') == SentBy(st);
    assert Sound(st', env.recode(Head(input)), Body(input) + r.data);
    ViolateKeepsSound(st', FrameFlood, env.recode(Head(input)), Body(input) + r.data);
  }

  lemma PlainKeeps(env: Env, cfg: Cfg, st: St, r: Read, input: Bytes)
    requires st.mode == Plain && PlainInv(env, st, input)
    ensures Inv(env, cfg, Deliver(env, cfg, st, r), input + r.data)
  {
    HeadersStay(input, r.data);
    FlattenOne(st.sends[1..], r.data);
    assert (st.sends + [r.data])[1..] == st.sends[1..] + [r.data];
  }

  lemma KilledKeeps(env: Env, cfg: Cfg, st: St, input: Bytes, data: Bytes)
    requires st.killed && Inv(env, cfg, st, input)
    ensures Inv(env, cfg, st, input + data)
  {
    if st.mode == WebSocket { HeadersStay(input, data); }
  }

  lemma OnDataKeeps(env: Env, cfg: Cfg, st: St, r: Read, input: Bytes)
    requires Inv(env, cfg, st, input)
    ensures Inv(env, cfg, OnData(env, cfg, st, r), input + r.data)
  {
    if st.killed {
      KilledKeeps(env, cfg, st, input, r.data);
    } else {
      var st' := Recheck(cfg, st, r);
      RecheckKeeps(env, cfg, st, r, input);
      if st'.killed {
        KilledKeeps(env, cfg, st', input, r.data);
      } else if st'.mode == Plain {
        PlainKeeps(env, cfg, st', r, input);
      } else if r.data == [] {
        assert input + r.data == input;
        FinishKeeps(env, cfg, st', r.last, input);
      } else if st'.mode == Handshaking {
        HandshakeKeeps(env, cfg, st', r, input);
      } else {
        if st'.msgReads >= cfg.maxMsgReads {
          ReadRefused(env, cfg, st', r, input);
        } else if |st'.acc| + st'.pendingLen + |r.data| < st'.need {
          ReadKept(env, cfg, st', r, input);
        } else {
          ReadPumped(env, cfg, st', r, input);
        }
      }
    }
  }

  lemma {:induction false} RunKeeps(env: Env, cfg: Cfg, start: int, rs: seq<Read>)
    ensures Inv(env, cfg, Run(env, cfg, Open(cfg, start), rs), Input(rs))
  {
    if rs != [] {
      var before := rs[..|rs| - 1];
      RunKeeps(env, cfg, start, before);
      OnDataKeeps(env, cfg, Run(env, cfg, Open(cfg, start), before), rs[|rs| - 1], Input(before));
    }
  }

  /** The client's stream as the wire upstream may show it: only the header
      block goes through a string and back. */
  function Echo(env: Env, input: Bytes): Bytes {
    if HeadersIn(input) then env.recode(Head(input)) + Body(input) else input
  }

  /** Bytes below 0x80 survive the trip through a string. */
  ghost predicate AsciiFaithful(env: Env) {
    forall b: Bytes :: AllAscii(b) ==> env.recode(b) == b
  }

  lemma EchoOfAscii(env: Env, input: Bytes)
    requires AsciiFaithful(env) && (HeadersIn(input) ==> AllAscii(Head(input)))
    ensures Echo(env, input) == input
  {
    if HeadersIn(input) { assert Head(input) + Body(input) == input; }
  }

  /** What was sent upstream but for the Close a violation injects. */
  function OwnSends(st: St): seq<Bytes> {
    if st.killed && st.sends != [] then st.sends[..|st.sends| - 1] else st.sends
  }

  /** In every run, what went upstream is a prefix of what the client sent,
      followed after a violation by one Close and nothing else. */
  lemma UpstreamIsClientPrefix(env: Env, cfg: Cfg, start: int, rs: seq<Read>, states: seq<St>, k: nat)
    requires History(env, cfg, Open(cfg, start), rs, states) && k <= |rs|
    ensures Flatten(OwnSends(states[k])) <= Echo(env, Input(rs[..k]))
    ensures var st := states[k];
            st.killed ==>
              st.verdict.Some? && Upstream(st) == Flatten(OwnSends(st)) + CloseFrame(st.verdict.value, true)
    ensures !states[k].killed ==> Upstream(states[k]) == Flatten(OwnSends(states[k]))
  {
    hide Inv, OnData, Open, Upstream, OwnSends, Flatten, Echo, CloseFrame;
    HistoryKeeps(env, cfg, start, rs, states, k);
    PrefixSent(env, cfg, states[k], Input(rs[..k]));
  }

  /** The sends of a session that got past its headers: the head, then frames. */
  lemma OwnSendsSplit(st: St, head: Bytes, body: Bytes)
    requires Sound(st, head, body)
    ensures Flatten(OwnSends(st)) == head + Flatten(Forwarded(st)) && Flatten(Forwarded(st)) <= body
  {
    hide Relay.Receive, CloseFrame, Flatten;
    var own := OwnSends(st);
    FlattenHead(own);
    assert own[0] == head && own[1..] == Forwarded(st);
  }

  /** Of a cut session: its own sends, then the Close. */
  lemma CloseAtEnd(st: St)
    requires st.killed && st.verdict.Some? && st.sends != [] && st.sends[|st.sends| - 1] == CloseFrame(st.verdict.value, true)
    ensures Upstream(st) == Flatten(OwnSends(st)) + CloseFrame(st.verdict.value, true)
  {
    hide CloseFrame, Flatten;
    assert st.sends == OwnSends(st) + [CloseFrame(st.verdict.value, true)];
    FlattenOne(OwnSends(st), CloseFrame(st.verdict.value, true));
  }

  lemma PrefixSent(env: Env, cfg: Cfg, st: St, input: Bytes)
    requires Inv(env, cfg, st, input)
    ensures Flatten(OwnSends(st)) <= Echo(env, input)
    ensures if st.killed then st.verdict.Some? && Upstream(st) == Flatten(OwnSends(st)) + CloseFrame(st.verdict.value, true)
            else Upstream(st) == Flatten(OwnSends(st))
  {
    hide AtRest, BlockEnd, BareLf, IsUpgrade, Relay.Receive, CloseFrame;
    if st.killed { CloseAtEnd(st); }
    if st.mode == WebSocket {
      OwnSendsSplit(st, env.recode(Head(input)), Body(input));
    } else if st.mode == Plain {
      FlattenHead(st.sends);
    }
  }

  lemma HistoryKeeps(env: Env, cfg: Cfg, start: int, rs: seq<Read>, states: seq<St>, k: nat)
    requires History(env, cfg, Open(cfg, start), rs, states) && k <= |rs|
    ensures Inv(env, cfg, states[k], Input(rs[..k]))
  {
    hide OnData, Inv, Run;
    HistoryRuns(env, cfg, Open(cfg, start), rs, states, k);
    RunKeeps(env, cfg, start, rs[..k]);
  }

  lemma CloseComesLast(st: St, head: Bytes, body: Bytes)
    requires st.killed && Sound(st, head, body)
    ensures var close := CloseFrame(st.verdict.value, true);
            && Upstream(st) == head + Flatten(Forwarded(st)) + close
            && ToRelay(st) == Flatten(Forwarded(st)) + close
  {
    hide Relay.Receive, CloseFrame, Flatten;
    FlattenHead(st.sends);
    var close := CloseFrame(st.verdict.value, true);
    FlattenOne(Forwarded(st), close);
    assert st.sends[1..] == Forwarded(st) + [close];
  }

  /** What the relay is sent once the handshake is through. */
  function ToRelay(st: St): Bytes {
    if st.sends == [] then [] else Flatten(st.sends[1..])
  }

  /** At every point of every WebSocket session, an independent RFC 6455
      receiver fed what has gone upstream holds exactly the messages that
      passed inspection, in order, with no part of another one. */
  lemma InspectorAndRelayAgree(env: Env, cfg: Cfg, start: int, rs: seq<Read>, states: seq<St>, k: nat)
    requires History(env, cfg, Open(cfg, start), rs, states) && k <= |rs|
    ensures var st := states[k];
            st.mode == WebSocket ==>
              Relay.Receive(Relay.START, ToRelay(st)) == (Relay.Reading(Bodies(st.accepted), None), [])
  {
    var st := states[k];
    hide OnData, History, Run, Open, NextFrame, BlockEnd, BareLf, IsUpgrade;
    HistoryKeeps(env, cfg, start, rs, states, k);
    if st.mode == WebSocket && st.killed {
      var close := CloseFrame(st.verdict.value, true);
      var frames := Flatten(Forwarded(st));
      CloseComesLast(st, st.sends[0], Body(Input(rs[..k])));
      Relay.ReceiveAppend(Relay.START, frames, close);
      Agreement.CloseIsTransparent(Relay.Receive(Relay.START, frames).0, st.verdict.value);
    }
  }

  /** Nothing is lost: in a session that has not been cut, what has gone
      upstream and what is held back make up the client's stream. */
  lemma NothingLost(env: Env, cfg: Cfg, start: int, rs: seq<Read>, states: seq<St>, k: nat)
    requires History(env, cfg, Open(cfg, start), rs, states) && k <= |rs|
    ensures var st, input := states[k], Input(rs[..k]);
            !st.killed ==>
              match st.mode
              case Handshaking => Upstream(st) == [] && st.hs == input
              case WebSocket => Upstream(st) + Flatten(st.pending) + Unparsed(st) == Echo(env, input)
              case Plain => Upstream(st) == Echo(env, input)
  {
    hide Inv, OnData, Open, Upstream, Echo, Unparsed, Flatten;
    HistoryKeeps(env, cfg, start, rs, states, k);
    if !states[k].killed { AllAccountedFor(env, cfg, states[k], Input(rs[..k])); }
  }

  lemma AllAccountedFor(env: Env, cfg: Cfg, st: St, input: Bytes)
    requires Inv(env, cfg, st, input) && !st.killed
    ensures st.mode == Handshaking ==> Upstream(st) == [] && st.hs == input
    ensures st.mode == WebSocket ==> Upstream(st) + Flatten(st.pending) + Unparsed(st) == Echo(env, input)
    ensures st.mode == Plain ==> Upstream(st) == Echo(env, input)
  {
    hide Stalled, Held, NextFrame, BlockEnd, BareLf, IsUpgrade, Relay.Receive, CloseFrame;
    if st.mode == WebSocket {
      var head, out, held, rest := st.sends[0], Flatten(Forwarded(st)), Flatten(st.pending), Unparsed(st);
      assert Upstream(st) == head + out;
      assert (head + out) + held + rest == head + (out + held + rest);
    }
  }

  /** Nor is anything held back without need: a receiver given all the client
      has sent after the header block would hold the messages let through and
      no other, the same unfinished one, and the same unparsed bytes. */
  lemma NoMessageWithheld(env: Env, cfg: Cfg, start: int, rs: seq<Read>, states: seq<St>, k: nat)
    requires History(env, cfg, Open(cfg, start), rs, states) && k <= |rs|
    ensures var st, input := states[k], Input(rs[..k]);
            st.mode == WebSocket && !st.killed ==>
              && HeadersIn(input)
              && Relay.Receive(Relay.START, Body(input))
                   == (Relay.Reading(Bodies(st.accepted), Partial(st)), Unparsed(st))
  {
    var st := states[k];
    hide OnData, History, Run, Open, NextFrame, BlockEnd, BareLf, IsUpgrade;
    HistoryKeeps(env, cfg, start, rs, states, k);
    if st.mode == WebSocket && !st.killed {
      Relay.ReceiveAppend(Relay.START, SoFar(st), Unparsed(st));
      Agreement.WaitMeansNoFrame(Unparsed(st), st.inMsg, st.msgLen, cfg.maxMsg);
    }
  }

  /** Nothing a live session retains grows past fixed bounds. */
  lemma RetainedMemoryBounded(env: Env, cfg: Cfg, start: int, rs: seq<Read>, states: seq<St>, k: nat)
    requires History(env, cfg, Open(cfg, start), rs, states) && k <= |rs|
    ensures var st := states[k];
            var most := AtLeastZero(cfg.maxMsg);
            !st.killed ==>
              && |st.hs| <= 16384
              && (st.mode == WebSocket ==>
                   && |st.pending| <= 256
                   && |st.msgParts| <= 64
                   && st.msgLen == Total(st.msgParts) <= most
                   && Total(st.pending) <= 256 * 139 + most
                   && |st.acc| + Total(st.chunks) < st.need
                   && st.need <= 14 + (if most < 125 then 125 else most)
                   && (!st.inMsg ==> st.pending == [] && st.msgParts == []))
  {
    var st := states[k];
    hide OnData, History, Run, Open, NextFrame, BlockEnd, BareLf, IsUpgrade;
    HistoryKeeps(env, cfg, start, rs, states, k);
    if st.mode == WebSocket && !st.killed {
      NeedBounded(Unparsed(st), st.inMsg, st.msgLen, cfg.maxMsg);
      FlattenLength(st.chunks);
    }
  }
}
