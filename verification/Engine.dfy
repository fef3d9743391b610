/** The WebSocket inspection engine as a state machine over reads: the state a
    session keeps, and what one read does to it. */
module Engine {
  import opened Wrappers
  import opened Bytes
  import opened Policy
  import opened Frames
  import opened Handshake
  import opened TokenBucket

  /** The parts of the platform the engine calls and cannot be seen here. */
  datatype Env = Env(
    parse: Bytes -> Option<Value>,   // JSON.parse of the decoded bytes; None when it throws
    show: Number -> string,          // String(n)
    recode: Bytes -> Bytes)          // bytes to string and back

  datatype Mode = Handshaking | WebSocket | Plain

  /** One message that passed inspection, and when. */
  datatype Accepted = Accepted(at: int, body: Bytes)

  /** One filter callback: the bytes, the end-of-input flag, the clock in ms,
      and what the ban list would answer at that instant. */
  datatype Read = Read(data: Bytes, last: bool, now: int, banned: bool)

  datatype St = St(
    mode: Mode,
    hs: Bytes, hsReads: int, hsScanned: nat,
    acc: Bytes, chunks: seq<Bytes>, pendingLen: nat, need: nat,
    msgReads: int,
    pending: seq<Bytes>, msgParts: seq<Bytes>, msgLen: nat, inMsg: bool,
    subs: set<string>, subCount: int,
    banCheckAt: int, killed: bool,
    bMsg: Bucket, bEvent: Bucket, bReq: Bucket,
    // What the session has emitted: upstream sends in order, the end of
    // input passed on, downstream frames, the verdict; and, for the record,
    // the messages that passed inspection.
    sends: seq<Bytes>, eof: bool, down: seq<Bytes>, verdict: Option<Rule>,
    accepted: seq<Accepted>)

  const MAX_HANDSHAKE := 16384
  const MAX_PENDING_FRAMES := 256
  const MAX_FRAGMENTS := 64

  function Open(cfg: Cfg, now: int): St {
    St(Handshaking, [], 0, 0, [], [], 0, 2, 0, [], [], 0, false, {}, 0,
       now + cfg.banRecheck * 1000, false,
       Fresh(cfg.msgRate, cfg.msgBurst, now), Fresh(cfg.eventRate, cfg.eventBurst, now),
       Fresh(cfg.reqRate, cfg.reqBurst, now),
       [], false, [], None, [])
  }

  /** Everything held is dropped, both sides get a Close, nothing follows. */
  function Violate(st: St, rule: Rule): St {
    if st.killed then st
    else st.(killed := true, pending := [], msgParts := [], chunks := [], pendingLen := 0,
             verdict := Some(rule),
             down := st.down + [NoticeFrame(rule), CloseFrame(rule, false)],
             sends := st.sends + [CloseFrame(rule, true)])
  }

  function Flush(st: St): St {
    st.(sends := st.sends + st.pending, pending := [])
  }

  function Accept(st: St, now: int, buf: Bytes): St {
    st.(accepted := st.accepted + [Accepted(now, buf)])
  }

  predicate SubscriptionId(v: Value) {
    v.Str? && 1 <= |v.s| <= 64
  }

  predicate EventBody(ev: Value) {
    ev.Obj? && Get(ev.fields, "kind").Num?
  }

  function InspectEvent(env: Env, cfg: Cfg, st: St, now: int, buf: Bytes, ev: Value): (r: St)
    ensures r.acc == st.acc
  {
    var st' := st.(bEvent := AfterTake(st.bEvent, now));
    if !Affordable(st.bEvent, now) then Violate(st', EventRate)
    else if !EventBody(ev) then Violate(st', Malformed)
    else if env.show(Get(ev.fields, "kind").n) in cfg.kindDeny then Violate(st', KindDenied)
    else Accept(st', now, buf)
  }

  /** REQ, COUNT and NEG-OPEN; all but COUNT open a subscription. */
  function InspectQuery(cfg: Cfg, st: St, now: int, buf: Bytes, id: Value, filters: seq<Value>, opens: bool): (r: St)
    ensures r.acc == st.acc
  {
    var st' := st.(bReq := AfterTake(st.bReq, now));
    if !Affordable(st.bReq, now) then Violate(st', ReqRate)
    else if !SubscriptionId(id) then Violate(st', Malformed)
    else
      match FiltersFault(cfg, filters)
      case Some(rule) => Violate(st', rule)
      case None =>
        if !opens || id.s in st.subs then Accept(st', now, buf)
        else if st.subCount >= cfg.maxSubs then Violate(st', TooManySubs)
        else Accept(st'.(subs := st.subs + {id.s}, subCount := st.subCount + 1), now, buf)
  }

  function InspectClose(st: St, now: int, buf: Bytes, id: Value): (r: St)
    ensures r.acc == st.acc
  {
    if id.Str? && id.s in st.subs then
      Accept(st.(subs := st.subs - {id.s}, subCount := if st.subCount > 0 then st.subCount - 1 else st.subCount), now, buf)
    else Accept(st, now, buf)
  }

  predicate NostrMessage(v: Option<Value>) {
    v.Some? && v.value.Arr? && |v.value.items| >= 1 && v.value.items[0].Str?
  }

  /** A whole reassembled message against the policy. */
  function Inspect(env: Env, cfg: Cfg, st: St, now: int, buf: Bytes): (r: St)
    ensures r.acc == st.acc
  {
    var st' := st.(bMsg := AfterTake(st.bMsg, now));
    if !Affordable(st.bMsg, now) then Violate(st', MsgRate)
    else if !NostrMessage(env.parse(buf)) then Violate(st', Malformed)
    else
      var msg := env.parse(buf).value.items;
      var t := msg[0].s;
      if t !in cfg.types then Violate(st', TypeNotAllowed)
      else if t == "EVENT" then InspectEvent(env, cfg, st', now, buf, Arg(msg, 1))
      else if t == "REQ" || t == "COUNT" then
        InspectQuery(cfg, st', now, buf, Arg(msg, 1), if |msg| >= 2 then msg[2..] else [], t == "REQ")
      else if t == "NEG-OPEN" then InspectQuery(cfg, st', now, buf, Arg(msg, 1), [Arg(msg, 2)], true)
      else if t == "AUTH" then
        var st'' := st'.(bEvent := AfterTake(st'.bEvent, now));
        if !Affordable(st'.bEvent, now) then Violate(st'', EventRate) else Accept(st'', now, buf)
      else if t == "CLOSE" || t == "NEG-CLOSE" then InspectClose(st', now, buf, Arg(msg, 1))
      else Accept(st', now, buf)
  }

  function NextOf(cfg: Cfg, st: St): Next {
    NextFrame(st.acc, st.inMsg, st.msgLen, cfg.maxMsg)
  }

  /** The final fragment is in: the message is inspected, then let go. */
  function FinishMessage(env: Env, cfg: Cfg, st: St, now: int): (r: St)
    ensures r.acc == st.acc
  {
    var msg := Flatten(st.msgParts);
    var st' := Inspect(env, cfg, st.(msgParts := [], msgLen := 0, msgReads := 0), now, msg);
    if st'.killed then st' else Flush(st')
  }

  /** The payload of a data frame joins the message it belongs to. */
  function Fragment(env: Env, cfg: Cfg, st: St, now: int, fin: bool, len: nat, payload: Bytes): (st': St)
    ensures st'.acc == st.acc
  {
    var parts := st.msgParts + [payload];
    if |parts| > MAX_FRAGMENTS then Violate(st.(msgParts := parts), FrameFlood)
    else
      var grown := st.(msgParts := parts, msgLen := st.msgLen + len, inMsg := !fin);
      if fin then FinishMessage(env, cfg, grown, now) else grown
  }

  /** One whole frame taken off the front of `acc`. */
  function TakeFrame(env: Env, cfg: Cfg, st: St, now: int): (st': St)
    requires NextOf(cfg, st).Take?
    ensures |st'.acc| < |st.acc|
  {
    var n := NextOf(cfg, st);
    var held := st.(need := 2, acc := st.acc[n.End()..], pending := st.pending + [st.acc[..n.End()]]);
    if |held.pending| > MAX_PENDING_FRAMES then Violate(held, FrameFlood)
    else if IsControl(n.op) then
      if held.inMsg then held else Flush(held)
    else Fragment(env, cfg, held, now, n.fin, n.len, Payload(st.acc, n))
  }

  function Pump(env: Env, cfg: Cfg, st: St, now: int): St
    decreases |st.acc|
  {
    if st.killed then st
    else
      var n := NextOf(cfg, st);
      match n
      case Wait(need) => st.(need := need)
      case Reject(rule) => Violate(st, rule)
      case Take(_, _, _, _) => Pump(env, cfg, TakeFrame(env, cfg, st, now), now)
  }

  /** Passing on the end of input. */
  function Finish(st: St, last: bool): St {
    if last && !st.killed then st.(eof := true) else st
  }

  /** The whole header block is in `hs`, ending at `end`. */
  function Classify(env: Env, cfg: Cfg, st: St, r: Read, end: nat): St
    requires end <= |st.hs|
  {
    if BareLf(st.hs, end) then Violate(st, Protocol)
    else
      var head, rest := st.hs[..end], st.hs[end..];
      var sent := st.(hs := [], sends := st.sends + [env.recode(head)]);
      if IsUpgrade(head) then
        Finish(Pump(env, cfg, sent.(mode := WebSocket, acc := rest), r.now), r.last)
      else
        Finish(sent.(mode := Plain, sends := if rest == [] then sent.sends else sent.sends + [rest]), r.last)
  }

  function HandshakeRead(env: Env, cfg: Cfg, st: St, r: Read): St {
    var st1 := st.(hsReads := st.hsReads + 1);
    if st1.hsReads > cfg.maxHsReads then Violate(st1, Protocol)
    else
      var st2 := st1.(hs := st.hs + r.data);
      if |st2.hs| > MAX_HANDSHAKE then Violate(st2, OversizedHandshake)
      else
        var end := BlockEnd(st2.hs, st.hsScanned - 2);
        var st3 := st2.(hsScanned := |st2.hs|);
        if end < 0 then st3 else Classify(env, cfg, st3, r, end)
  }

  /** Bytes arrived and not yet parsed. */
  function Unparsed(st: St): Bytes {
    st.acc + Flatten(st.chunks)
  }

  function WebSocketRead(env: Env, cfg: Cfg, st: St, r: Read): St {
    var st1 := st.(msgReads := st.msgReads + 1);
    if st1.msgReads > cfg.maxMsgReads then Violate(st1, FrameFlood)
    else
      var st2 := st1.(chunks := st.chunks + [r.data], pendingLen := st.pendingLen + |r.data|);
      if |st2.acc| + st2.pendingLen < st2.need then st2
      else Finish(Pump(env, cfg, st2.(acc := Unparsed(st2), chunks := [], pendingLen := 0), r.now), r.last)
  }

  function Deliver(env: Env, cfg: Cfg, st: St, r: Read): St {
    if st.mode == Plain then st.(sends := st.sends + [r.data], eof := st.eof || r.last)
    else if r.data == [] then Finish(st, r.last)
    else if st.mode == Handshaking then HandshakeRead(env, cfg, st, r)
    else WebSocketRead(env, cfg, st, r)
  }

  predicate RecheckDue(cfg: Cfg, st: St, now: int) {
    st.mode != Plain && cfg.banOn && now >= st.banCheckAt
  }

  /** Mid-session ban check: at most one look-up per recheck interval. */
  function Recheck(cfg: Cfg, st: St, r: Read): St {
    if !RecheckDue(cfg, st, r.now) then st
    else
      var st' := st.(banCheckAt := r.now + cfg.banRecheck * 1000);
      if r.banned then Violate(st', Banned) else st'
  }

  function OnData(env: Env, cfg: Cfg, st: St, r: Read): St {
    if st.killed then st
    else
      var st' := Recheck(cfg, st, r);
      if st'.killed then st' else Deliver(env, cfg, st', r)
  }

  /** A whole session. */
  function Run(env: Env, cfg: Cfg, st: St, rs: seq<Read>): St {
    if rs == [] then st
    else OnData(env, cfg, Run(env, cfg, st, rs[..|rs| - 1]), rs[|rs| - 1])
  }

  /** The same, state by state: `states[i]` is the session after i reads. */
  ghost predicate History(env: Env, cfg: Cfg, first: St, rs: seq<Read>, states: seq<St>) {
    && |states| == |rs| + 1 && states[0] == first
    && forall i :: 0 <= i < |rs| ==> states[i + 1] == OnData(env, cfg, states[i], rs[i])
  }

  lemma {:induction false} HistoryRuns(env: Env, cfg: Cfg, first: St, rs: seq<Read>, states: seq<St>, k: nat)
    requires History(env, cfg, first, rs, states) && k <= |rs|
    ensures states[k] == Run(env, cfg, first, rs[..k])
  {
    hide OnData;
    if k > 0 {
      HistoryRuns(env, cfg, first, rs, states, k - 1);
      assert rs[..k][..k - 1] == rs[..k - 1];
      assert states[k - 1 + 1] == OnData(env, cfg, states[k - 1], rs[k - 1]);
    }
  }

  /** The client's byte stream. */
  function Input(rs: seq<Read>): Bytes {
    if rs == [] then [] else Input(rs[..|rs| - 1]) + rs[|rs| - 1].data
  }

  /** The clock never runs backwards. */
  predicate Timely(start: int, rs: seq<Read>) {
    && (forall i :: 0 <= i < |rs| ==> start <= rs[i].now)
    && (forall i, j :: 0 <= i <= j < |rs| ==> rs[i].now <= rs[j].now)
  }

  /** What the wire upstream carries. */
  function Upstream(st: St): Bytes {
    Flatten(st.sends)
  }
}
