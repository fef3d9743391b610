/** One filtered connection: the engine's own code, updating its state in place. */
module Session {
  import opened Wrappers
  import opened Bytes
  import opened Policy
  import opened Frames
  import opened Handshake
  import TokenBucket
  import opened Engine

  class Connection {
    const env: Env
    const cfg: Cfg
    const bMsg: TokenBucket.Meter
    const bEvent: TokenBucket.Meter
    const bReq: TokenBucket.Meter

    var mode: Mode
    var hs: Bytes
    var hsReads: int
    var hsScanned: nat
    var acc: Bytes
    var chunks: seq<Bytes>
    var pendingLen: nat
    var need: nat
    var msgReads: int
    var pending: seq<Bytes>
    var msgParts: seq<Bytes>
    var msgLen: nat
    var inMsg: bool
    var subs: set<string>
    var subCount: int
    var banCheckAt: int
    var killed: bool

    // Calls made on the nginx session object.
    var sends: seq<Bytes>
    var eof: bool
    var down: seq<Bytes>
    var verdict: Option<Rule>
    ghost var accepted: seq<Accepted>

    ghost predicate Valid() {
      bMsg != bEvent && bMsg != bReq && bEvent != bReq
    }

    /** The state of the connection as a value. */
    ghost function State(): St
      reads this, bMsg, bEvent, bReq
    {
      St(mode, hs, hsReads, hsScanned, acc, chunks, pendingLen, need, msgReads,
         pending, msgParts, msgLen, inMsg, subs, subCount, banCheckAt, killed,
         bMsg.State(), bEvent.State(), bReq.State(),
         sends, eof, down, verdict, accepted)
    }

    constructor (env: Env, cfg: Cfg, now: int)
      ensures Valid() && fresh(bMsg) && fresh(bEvent) && fresh(bReq)
      ensures this.env == env && this.cfg == cfg
      ensures State() == Open(cfg, now)
    {
      this.env, this.cfg := env, cfg;
      bMsg := new TokenBucket.Meter(cfg.msgRate, cfg.msgBurst, now);
      bEvent := new TokenBucket.Meter(cfg.eventRate, cfg.eventBurst, now);
      bReq := new TokenBucket.Meter(cfg.reqRate, cfg.reqBurst, now);
      mode := Handshaking;
      hs, hsReads, hsScanned := [], 0, 0;
      acc, chunks, pendingLen, need, msgReads := [], [], 0, 2, 0;
      pending, msgParts, msgLen, inMsg := [], [], 0, false;
      subs, subCount := {}, 0;
      banCheckAt := now + cfg.banRecheck * 1000;
      killed := false;
      sends, eof, down, verdict, accepted := [], false, [], None, [];
    }

    method DropSegments()
      modifies this
      ensures State() == old(State()).(chunks := [], pendingLen := 0)
    {
      chunks, pendingLen := [], 0;
    }

    method DropFrames()
      modifies this
      ensures State() == old(State()).(pending := [], msgParts := [])
    {
      pending, msgParts := [], [];
    }

    method SendCloses(rule: Rule)
      modifies this
      ensures State() == old(State()).(down := old(down) + [NoticeFrame(rule), CloseFrame(rule, false)],
                                       sends := old(sends) + [CloseFrame(rule, true)])
    {
      hide NoticeFrame, CloseFrame;
      down := down + [NoticeFrame(rule), CloseFrame(rule, false)];
      sends := sends + [CloseFrame(rule, true)];
    }

    method Close(rule: Rule)
      modifies this
      ensures State() == Violate(old(State()), rule)
    {
      hide NoticeFrame, CloseFrame;
      if killed { return; }
      killed := true;
      DropFrames();
      DropSegments();
      verdict := Some(rule);
      SendCloses(rule);
    }

    method FlushPending()
      modifies this
      ensures State() == Flush(old(State()))
    {
      for i := 0 to |pending|
        invariant State() == old(State()).(sends := sends)
        invariant i <= |pending| && sends == old(sends) + pending[..i]
      {
        sends := sends + [pending[i]];
        assert pending[..i + 1] == pending[..i] + [pending[i]];
      }
      assert pending[..|pending|] == pending;
      pending := [];
    }

    method Pass(now: int, ghost buf: Bytes)
      modifies this
      ensures State() == Accept(old(State()), now, buf)
    {
      accepted := accepted + [Accepted(now, buf)];
    }

    method Subscribe(id: string)
      modifies this
      ensures State() == old(State()).(subs := old(subs) + {id}, subCount := old(subCount) + 1)
    {
      subs := subs + {id};
      subCount := subCount + 1;
    }

    method Unsubscribe(now: int, ghost buf: Bytes, id: Value)
      modifies this
      ensures State() == InspectClose(old(State()), now, buf, id)
    {
      if id.Str? && id.s in subs {
        subs := subs - {id.s};
        if subCount > 0 { subCount := subCount - 1; }
      }
      Pass(now, buf);
    }

    method InspectEventBody(now: int, ghost buf: Bytes, ev: Value)
      requires Valid() && !killed
      modifies this, bEvent
      ensures State() == InspectEvent(env, cfg, old(State()), now, buf, ev)
    {
      hide Violate, Get, Accept, TokenBucket.AfterTake, TokenBucket.Affordable;
      var ok := bEvent.Take(now);
      if !ok { Close(EventRate); return; }
      if !ev.Obj? || !Get(ev.fields, "kind").Num? { Close(Malformed); return; }
      if env.show(Get(ev.fields, "kind").n) in cfg.kindDeny { Close(KindDenied); return; }
      Pass(now, buf);
    }

    method InspectFilters(now: int, ghost buf: Bytes, sid: Value, filters: seq<Value>, opens: bool)
      requires Valid() && !killed
      modifies this, bReq
      ensures State() == InspectQuery(cfg, old(State()), now, buf, sid, filters, opens)
    {
      hide Violate, FiltersFault, Accept, TokenBucket.AfterTake, TokenBucket.Affordable;
      var ok := bReq.Take(now);
      if !ok { Close(ReqRate); return; }
      if !sid.Str? || |sid.s| < 1 || |sid.s| > 64 { Close(Malformed); return; }
      var fault := CheckFilters(cfg, filters);
      if fault.Some? { Close(fault.value); return; }
      if opens && sid.s !in subs {
        if subCount >= cfg.maxSubs { Close(TooManySubs); return; }
        Subscribe(sid.s);
      }
      Pass(now, buf);
    }

    method InspectMessage(now: int, buf: Bytes)
      requires Valid() && !killed
      modifies this, bMsg, bEvent, bReq
      ensures State() == Inspect(env, cfg, old(State()), now, buf)
    {
      hide Violate, InspectEvent, InspectQuery, InspectClose, Accept, TokenBucket.AfterTake, TokenBucket.Affordable;
      var ok := bMsg.Take(now);
      if !ok { Close(MsgRate); return; }
      var parsed := env.parse(buf);
      if !NostrMessage(parsed) { Close(Malformed); return; }
      var msg := parsed.value.items;
      var t := msg[0].s;
      if t !in cfg.types { Close(TypeNotAllowed); return; }
      if t == "EVENT" {
        InspectEventBody(now, buf, Arg(msg, 1));
      } else if t == "REQ" || t == "COUNT" {
        InspectFilters(now, buf, Arg(msg, 1), if |msg| >= 2 then msg[2..] else [], t == "REQ");
      } else if t == "NEG-OPEN" {
        InspectFilters(now, buf, Arg(msg, 1), [Arg(msg, 2)], true);
      } else if t == "AUTH" {
        ok := bEvent.Take(now);
        if !ok { Close(EventRate); return; }
        Pass(now, buf);
      } else if t == "CLOSE" || t == "NEG-CLOSE" {
        Unsubscribe(now, buf, Arg(msg, 1));
      } else {
        Pass(now, buf);
      }
    }

    method ResetMessage()
      modifies this
      ensures State() == old(State()).(msgParts := [], msgLen := 0, msgReads := 0)
    {
      msgParts, msgLen, msgReads := [], 0, 0;
    }

    method CompleteMessage(now: int)
      requires Valid() && !killed
      modifies this, bMsg, bEvent, bReq
      ensures State() == FinishMessage(env, cfg, old(State()), now)
    {
      hide Violate, Inspect, Flush, Flatten;
      var msgBuf := Flatten(msgParts);
      ResetMessage();
      InspectMessage(now, msgBuf);
      if !killed { FlushPending(); }
    }

    /** The payload of a taken frame joins its message; a final fragment
        sends the whole message to inspection. */
    method AddFragment(now: int, fin: bool, len: nat, payload: Bytes)
      requires Valid() && !killed
      modifies this, bMsg, bEvent, bReq
      ensures State() == Fragment(env, cfg, old(State()), now, fin, len, payload)
    {
      hide Violate, FinishMessage;
      msgParts := msgParts + [payload];
      if |msgParts| > MAX_FRAGMENTS { Close(FrameFlood); return; }
      msgLen := msgLen + len;
      inMsg := !fin;
      if fin {
        CompleteMessage(now);
      }
    }

    /** A copy of the payload bytes, unmasked in place. */
    method UnmaskedPayload(n: Next) returns (payload: Bytes)
      requires n.Take? && n.End() <= |acc|
      ensures payload == Payload(acc, n)
    {
      var raw := acc[n.off + 4..n.End()];
      var copy := new byte[|raw|](i requires 0 <= i < |raw| => raw[i]);
      assert copy[..] == raw;
      UnmaskInPlace(copy, acc[n.off..n.off + 4]);
      return copy[..];
    }

    method DetachFrame(end: nat)
      requires end <= |acc|
      modifies this
      ensures State() == old(State()).(need := 2, acc := old(acc)[end..], pending := old(pending) + [old(acc)[..end]])
    {
      need := 2;
      pending := pending + [acc[..end]];
      acc := acc[end..];
    }

    method ConsumeFrame(now: int, n: Next)
      requires Valid() && !killed
      requires n == NextOf(cfg, State()) && n.Take?
      modifies this, bMsg, bEvent, bReq
      ensures State() == TakeFrame(env, cfg, old(State()), now)
    {
      hide Violate, Fragment, Flush, NextFrame, Payload;
      var payload := UnmaskedPayload(n);
      DetachFrame(n.End());
      if |pending| > MAX_PENDING_FRAMES { Close(FrameFlood); return; }
      if IsControl(n.op) {
        if !inMsg { FlushPending(); }
      } else {
        AddFragment(now, n.fin, n.len, payload);
      }
    }

    /** What the header at the front of `acc` calls for. */
    method ReadHeader() returns (n: Next)
      ensures n == NextOf(cfg, State())
    {
      if |acc| < 2 { return Wait(2); }
      var b0, b1 := acc[0], acc[1];
      var fin, op := b0 >= 0x80, b0 % 0x10;
      if b0 / 0x10 % 8 != 0 { return Reject(Protocol); }
      if b1 < 0x80 { return Reject(Protocol); }
      var len: nat, off := b1 % 0x80, 2;
      if len == 126 {
        if |acc| < 4 { return Wait(4); }
        len, off := U16(acc, 2), 4;
      } else if len == 127 {
        if |acc| < 10 { return Wait(10); }
        if U32(acc, 2) != 0 { return Reject(OversizedMessage); }
        len, off := U32(acc, 6), 10;
      }
      if IsControl(op) {
        if !fin || len > 125 { return Reject(Protocol); }
      } else {
        if op == OP_BIN { return Reject(BinaryFrame); }
        if op != OP_TEXT && op != OP_CONT { return Reject(Protocol); }
        if op == OP_TEXT && inMsg { return Reject(Protocol); }
        if op == OP_CONT && !inMsg { return Reject(Protocol); }
        if msgLen + len > cfg.maxMsg { return Reject(OversizedMessage); }
      }
      if |acc| < off + 4 + len { return Wait(off + 4 + len); }
      return Take(fin, op, off, len);
    }

    /** pump: parse as many complete frames as `acc` holds. */
    method PumpFrames(now: int)
      requires Valid()
      modifies this, bMsg, bEvent, bReq
      ensures State() == Pump(env, cfg, old(State()), now)
    {
      hide Violate, TakeFrame, NextFrame;
      while !killed
        invariant Pump(env, cfg, State(), now) == Pump(env, cfg, old(State()), now)
        decreases |acc|, !killed
      {
        var n := ReadHeader();
        match n
        case Wait(bytes) => need := bytes; return;
        case Reject(rule) => Close(rule); return;
        case Take(_, _, _, _) => ConsumeFrame(now, n);
      }
    }

    /** The header block is whole: refuse it, or send it on and decide what
        kind of session this is. */
    method ClassifySession(r: Read, end: nat)
      requires Valid() && !killed && end <= |hs|
      modifies this, bMsg, bEvent, bReq
      ensures State() == Classify(env, cfg, old(State()), r, end)
    {
      hide Violate, Pump, Finish, IsUpgrade, BareLf;
      var bare := HasBareLf(hs, end);
      if bare { Close(Protocol); return; }
      var head, rest := hs[..end], hs[end..];
      SendHead(head);
      if IsUpgrade(head) {
        StartFrames(rest);
        PumpFrames(r.now);
      } else {
        StartPlain(rest);
      }
      PassEof(r.last);
    }

    method StartFrames(rest: Bytes)
      modifies this
      ensures State() == old(State()).(mode := WebSocket, acc := rest)
    {
      mode, acc := WebSocket, rest;
    }

    method StartPlain(rest: Bytes)
      modifies this
      ensures State() == old(State()).(mode := Plain, sends := if rest == [] then old(sends) else old(sends) + [rest])
    {
      mode := Plain;
      if |rest| > 0 { sends := sends + [rest]; }
    }

    method SendHead(head: Bytes)
      modifies this
      ensures State() == old(State()).(hs := [], sends := old(sends) + [env.recode(head)])
    {
      hs := [];
      sends := sends + [env.recode(head)];
    }

    method PassEof(last: bool)
      modifies this
      ensures State() == Finish(old(State()), last)
    {
      if last && !killed { eof := true; }
    }

    method HoldHeader(data: Bytes)
      modifies this
      ensures State() == old(State()).(hs := old(hs) + data)
    {
      hs := hs + data;
    }

    method ScanHandshake() returns (end: int)
      modifies this
      ensures end == BlockEnd(old(hs), old(hsScanned) - 2)
      ensures State() == old(State()).(hsScanned := |old(hs)|)
    {
      end := HeaderBlockEnd(hs, hsScanned - 2);
      hsScanned := |hs|;
    }

    method ReadHandshake(r: Read)
      requires Valid() && !killed
      modifies this, bMsg, bEvent, bReq
      ensures State() == HandshakeRead(env, cfg, old(State()), r)
    {
      hide Violate, Classify, BlockEnd;
      hsReads := hsReads + 1;
      if hsReads > cfg.maxHsReads { Close(Protocol); return; }
      HoldHeader(r.data);
      if |hs| > MAX_HANDSHAKE { Close(OversizedHandshake); return; }
      var end := ScanHandshake();
      if end >= 0 { ClassifySession(r, end); }
    }

    /** Join the held segments to what is already contiguous. */
    method Materialise()
      modifies this
      ensures State() == old(State()).(acc := Unparsed(old(State())), chunks := [], pendingLen := 0)
    {
      ghost var whole := acc + Flatten(chunks);
      if |acc| == 0 && |chunks| == 1 {
        assert Flatten(chunks) == chunks[0] + Flatten([]);
        acc := chunks[0];
      } else {
        acc := acc + Flatten(chunks);
      }
      assert acc == whole;
      chunks, pendingLen := [], 0;
    }

    method HoldSegment(data: Bytes)
      modifies this
      ensures State() == old(State()).(chunks := old(chunks) + [data], pendingLen := old(pendingLen) + |data|)
    {
      chunks := chunks + [data];
      pendingLen := pendingLen + |data|;
    }

    method ReadFrames(r: Read)
      requires Valid() && !killed
      modifies this, bMsg, bEvent, bReq
      ensures State() == WebSocketRead(env, cfg, old(State()), r)
    {
      hide Violate, Pump, Finish, Flatten;
      msgReads := msgReads + 1;
      if msgReads > cfg.maxMsgReads { Close(FrameFlood); return; }
      HoldSegment(r.data);
      if |acc| + pendingLen < need { return; }
      Materialise();
      PumpFrames(r.now);
      PassEof(r.last);
    }

    method DeliverRead(r: Read)
      requires Valid() && !killed
      modifies this, bMsg, bEvent, bReq
      ensures State() == Deliver(env, cfg, old(State()), r)
    {
      hide HandshakeRead, WebSocketRead, Finish;
      if mode == Plain {
        sends, eof := sends + [r.data], eof || r.last;
      } else if |r.data| == 0 {
        PassEof(r.last);
      } else if mode == Handshaking {
        ReadHandshake(r);
      } else {
        ReadFrames(r);
      }
    }

    method RecheckBan(r: Read)
      requires !killed
      modifies this
      ensures State() == Recheck(cfg, old(State()), r)
    {
      hide Violate;
      if mode != Plain && cfg.banOn && r.now >= banCheckAt {
        banCheckAt := r.now + cfg.banRecheck * 1000;
        if r.banned { Close(Banned); }
      }
    }

    /** The upstream filter callback. */
    method Receive(r: Read)
      requires Valid()
      modifies this, bMsg, bEvent, bReq
      ensures State() == OnData(env, cfg, old(State()), r)
    {
      hide Recheck, Deliver;
      if !killed {
        RecheckBan(r);
        if !killed { DeliverRead(r); }
      }
    }

    /** A whole session, callback after callback. */
    method Serve(rs: seq<Read>)
      requires Valid()
      modifies this, bMsg, bEvent, bReq
      ensures State() == Run(env, cfg, old(State()), rs)
    {
      hide OnData;
      for i := 0 to |rs|
        invariant State() == Run(env, cfg, old(State()), rs[..i])
      {
        Receive(rs[i]);
        assert rs[..i + 1][..i] == rs[..i];
      }
      assert rs[..|rs|] == rs;
    }
  }
}
