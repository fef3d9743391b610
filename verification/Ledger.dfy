/** What every run keeps about policy: each message let through conforms, open
    subscriptions are counted exactly, and traffic is within its rates. */
module Ledger {
  import opened Bytes
  import opened Policy
  import opened Frames
  import opened Handshake
  import opened TokenBucket
  import opened Engine
  import opened StreamInvariants

  /** The three things a message can be charged for. */
  datatype Lane = EveryMessage | Publishing | Querying

  /** The body is an array that starts with a string. */
  predicate IsMessage(env: Env, body: Bytes) {
    match env.parse(body)
    case Some(Arr(items)) => items != [] && items[0].Str?
    case _ => false
  }

  function Parts(env: Env, body: Bytes): (parts: seq<Value>)
    requires IsMessage(env, body)
    ensures parts != [] && parts[0].Str?
  {
    env.parse(body).value.items
  }

  function TypeOf(env: Env, body: Bytes): string {
    if IsMessage(env, body) then Parts(env, body)[0].s else ""
  }

  predicate InLane(env: Env, lane: Lane, body: Bytes) {
    match lane
    case EveryMessage => true
    case Publishing => TypeOf(env, body) == "EVENT" || TypeOf(env, body) == "AUTH"
    case Querying => TypeOf(env, body) == "REQ" || TypeOf(env, body) == "COUNT" || TypeOf(env, body) == "NEG-OPEN"
  }

  /** When the messages of one lane were let through. */
  function Times(env: Env, lane: Lane, log: seq<Accepted>): seq<int> {
    if log == [] then []
    else
      var last := log[|log| - 1];
      Times(env, lane, log[..|log| - 1]) + if InLane(env, lane, last.body) then [last.at] else []
  }

  /** What a message does to the set of open subscriptions; REQ and NEG-OPEN
      share one name space. */
  function Effect(env: Env, subs: set<string>, body: Bytes): set<string> {
    if !IsMessage(env, body) || |Parts(env, body)| < 2 || !Parts(env, body)[1].Str? then subs
    else
      var t, id := TypeOf(env, body), Parts(env, body)[1].s;
      if t == "REQ" || t == "NEG-OPEN" then subs + {id}
      else if t == "CLOSE" || t == "NEG-CLOSE" then subs - {id}
      else subs
  }

  /** Ids opened and not yet closed by the messages let through. */
  function OpenIds(env: Env, log: seq<Accepted>): set<string> {
    if log == [] then {}
    else Effect(env, OpenIds(env, log[..|log| - 1]), log[|log| - 1].body)
  }

  /** An event is an object whose kind is a number not on the deny list. */
  predicate EventConforms(env: Env, cfg: Cfg, ev: Value) {
    ev.Obj? && exists i :: 0 <= i < |ev.fields| && KindAllowed(env, cfg, ev.fields, i)
  }

  predicate KindAllowed(env: Env, cfg: Cfg, fields: seq<Field>, i: nat)
    requires i < |fields|
  {
    Reads(fields, i, "kind") && fields[i].value.Num? && env.show(fields[i].value.n) !in cfg.kindDeny
  }

  /** A subscription is named by 1 to 64 characters. */
  predicate NamesSubscription(msg: seq<Value>) {
    |msg| >= 2 && msg[1].Str? && 1 <= |msg[1].s| <= 64
  }

  /** The part of the policy one message can be held against by itself. */
  predicate Conforms(env: Env, cfg: Cfg, body: Bytes) {
    && IsMessage(env, body)
    && TypeOf(env, body) in cfg.types
    && (var msg, t := Parts(env, body), TypeOf(env, body);
        && (t == "EVENT" ==> |msg| >= 2 && EventConforms(env, cfg, msg[1]))
        && (t == "REQ" || t == "COUNT" ==> NamesSubscription(msg) && FiltersConform(cfg, msg[2..]))
        && (t == "NEG-OPEN" ==>
              NamesSubscription(msg) && |msg| >= 3 && FiltersConform(cfg, [msg[2]])))
  }

  lemma KindRead(env: Env, cfg: Cfg, ev: Value)
    ensures EventConforms(env, cfg, ev)
       <==> EventBody(ev) && env.show(Get(ev.fields, "kind").n) !in cfg.kindDeny
  {
    hide Reads;
    if ev.Obj? {
      GetFinds(ev.fields, "kind");
      if EventBody(ev) {
        var i :| 0 <= i < |ev.fields| && Reads(ev.fields, i, "kind");
        assert KindAllowed(env, cfg, ev.fields, i) <==> env.show(Get(ev.fields, "kind").n) !in cfg.kindDeny;
      }
    }
  }

  /** The accounts of a session. */
  datatype Books = Books(subs: set<string>, subCount: int, log: seq<Accepted>,
                         bMsg: Bucket, bEvent: Bucket, bReq: Bucket)

  function BooksOf(st: St): Books {
    Books(st.subs, st.subCount, st.accepted, st.bMsg, st.bEvent, st.bReq)
  }

  ghost predicate Tracked(env: Env, cfg: Cfg, subs: set<string>, subCount: int, log: seq<Accepted>) {
    subs == OpenIds(env, log) && subCount == |subs| <= AtLeastZero(cfg.maxSubs)
  }

  ghost predicate Counted(env: Env, cfg: Cfg, b: Books) {
    Tracked(env, cfg, b.subs, b.subCount, b.log)
  }

  ghost predicate Conforming(env: Env, cfg: Cfg, b: Books) {
    forall i :: 0 <= i < |b.log| ==> Conforms(env, cfg, b.log[i].body)
  }

  ghost predicate Charged(b: Bucket, rate: real, burst: real, times: seq<int>, now: int) {
    b.rate == rate && b.burst == burst && b.t <= now && Paid(b, times)
  }

  ghost predicate Priced(env: Env, cfg: Cfg, b: Books, now: int) {
    && Charged(b.bMsg, cfg.msgRate, cfg.msgBurst, Times(env, EveryMessage, b.log), now)
    && Charged(b.bEvent, cfg.eventRate, cfg.eventBurst, Times(env, Publishing, b.log), now)
    && Charged(b.bReq, cfg.reqRate, cfg.reqBurst, Times(env, Querying, b.log), now)
  }

  predicate SaneRates(cfg: Cfg) {
    cfg.msgRate >= 0.0 && cfg.eventRate >= 0.0 && cfg.reqRate >= 0.0
  }

  /** The rates are only promised on a clock that does not run backwards. */
  ghost predicate InOrder(env: Env, cfg: Cfg, b: Books, timed: bool, now: int) {
    && Counted(env, cfg, b) && Conforming(env, cfg, b)
    && (timed && SaneRates(cfg) ==> Priced(env, cfg, b, now))
  }

  lemma LogOneMore(env: Env, log: seq<Accepted>, e: Accepted)
    ensures OpenIds(env, log + [e]) == Effect(env, OpenIds(env, log), e.body)
    ensures forall lane :: Times(env, lane, log + [e])
                           == Times(env, lane, log) + if InLane(env, lane, e.body) then [e.at] else []
  {
    assert (log + [e])[..|log|] == log;
  }

  /** What a query leaves of the table and the log. */
  lemma QueryLeaves(cfg: Cfg, st: St, now: int, buf: Bytes, id: Value, filters: seq<Value>, opens: bool)
    requires !st.killed
    ensures var r := InspectQuery(cfg, st, now, buf, id, filters, opens);
            if r.killed then r.subs == st.subs && r.subCount == st.subCount && r.accepted == st.accepted
            else
              && id.Str? && r.accepted == st.accepted + [Accepted(now, buf)]
              && r.subs == (if opens then st.subs + {id.s} else st.subs)
              && (if opens && id.s !in st.subs then r.subCount == st.subCount + 1 <= cfg.maxSubs else r.subCount == st.subCount)
  {
    hide FiltersFault, AfterTake, Affordable, NoticeFrame, CloseFrame;
    if id.Str? && id.s in st.subs { assert st.subs + {id.s} == st.subs; }
  }

  lemma QueryTracks(env: Env, cfg: Cfg, st: St, now: int, buf: Bytes, id: Value, filters: seq<Value>, opens: bool)
    requires !st.killed && Tracked(env, cfg, st.subs, st.subCount, st.accepted)
    requires id.Str? ==> Effect(env, st.subs, buf) == if opens then st.subs + {id.s} else st.subs
    ensures var r := InspectQuery(cfg, st, now, buf, id, filters, opens);
            Tracked(env, cfg, r.subs, r.subCount, r.accepted)
  {
    hide InspectQuery, Effect, OpenIds;
    QueryLeaves(cfg, st, now, buf, id, filters, opens);
    LogOneMore(env, st.accepted, Accepted(now, buf));
    if id.Str? && id.s in st.subs { assert st.subs + {id.s} == st.subs; }
  }

  lemma CloseTracks(env: Env, cfg: Cfg, st: St, now: int, buf: Bytes, id: Value)
    requires Tracked(env, cfg, st.subs, st.subCount, st.accepted)
    requires Effect(env, st.subs, buf) == if id.Str? then st.subs - {id.s} else st.subs
    ensures var r := InspectClose(st, now, buf, id);
            Tracked(env, cfg, r.subs, r.subCount, r.accepted)
  {
    hide Effect, OpenIds;
    LogOneMore(env, st.accepted, Accepted(now, buf));
    if id.Str? && id.s !in st.subs { assert st.subs - {id.s} == st.subs; }
  }

  lemma EventTracks(env: Env, cfg: Cfg, st: St, now: int, buf: Bytes, ev: Value)
    requires !st.killed && Tracked(env, cfg, st.subs, st.subCount, st.accepted)
    requires Effect(env, st.subs, buf) == st.subs
    ensures var r := InspectEvent(env, cfg, st, now, buf, ev);
            Tracked(env, cfg, r.subs, r.subCount, r.accepted)
  {
    hide AfterTake, Affordable, Effect, OpenIds, Get, NoticeFrame, CloseFrame;
    LogOneMore(env, st.accepted, Accepted(now, buf));
  }

  lemma InspectTracks(env: Env, cfg: Cfg, st: St, now: int, buf: Bytes)
    requires !st.killed && Tracked(env, cfg, st.subs, st.subCount, st.accepted)
    ensures var r := Inspect(env, cfg, st, now, buf);
            Tracked(env, cfg, r.subs, r.subCount, r.accepted)
  {
    hide AfterTake, Affordable, OpenIds, InspectEvent, InspectQuery, InspectClose, NoticeFrame, CloseFrame;
    LogOneMore(env, st.accepted, Accepted(now, buf));
    if NostrMessage(env.parse(buf)) {
      var st' := st.(bMsg := AfterTake(st.bMsg, now));
      var msg, t := env.parse(buf).value.items, TypeOf(env, buf);
      if t == "EVENT" {
        EventTracks(env, cfg, st', now, buf, Arg(msg, 1));
      } else if t == "REQ" || t == "COUNT" {
        QueryTracks(env, cfg, st', now, buf, Arg(msg, 1), if |msg| >= 2 then msg[2..] else [], t == "REQ");
      } else if t == "NEG-OPEN" {
        QueryTracks(env, cfg, st', now, buf, Arg(msg, 1), [Arg(msg, 2)], true);
      } else if t == "CLOSE" || t == "NEG-CLOSE" {
        CloseTracks(env, cfg, st', now, buf, Arg(msg, 1));
      }
    }
  }

  /** Whether a message asks for a subscription. */
  predicate Opens(env: Env, body: Bytes) {
    TypeOf(env, body) == "REQ" || TypeOf(env, body) == "NEG-OPEN"
  }

  predicate RoomFor(env: Env, cfg: Cfg, subs: set<string>, subCount: int, body: Bytes) {
    Opens(env, body) ==> Effect(env, subs, body) == subs || subCount < cfg.maxSubs
  }

  /** A message is let through exactly when every bucket it is charged to can
      pay, the policy admits it, and there is room for its subscription. */
  lemma LetThroughIff(env: Env, cfg: Cfg, st: St, now: int, buf: Bytes)
    requires !st.killed
    ensures !Inspect(env, cfg, st, now, buf).killed
       <==> && Affordable(st.bMsg, now)
            && (InLane(env, Publishing, buf) ==> Affordable(st.bEvent, now))
            && (InLane(env, Querying, buf) ==> Affordable(st.bReq, now))
            && Conforms(env, cfg, buf)
            && RoomFor(env, cfg, st.subs, st.subCount, buf)
  {
    hide InspectEvent, InspectQuery, Conforms, FiltersFault, FiltersConform, AfterTake, Affordable, Get, NoticeFrame, CloseFrame;
    if NostrMessage(env.parse(buf)) {
      var st' := st.(bMsg := AfterTake(st.bMsg, now));
      var msg, t := env.parse(buf).value.items, TypeOf(env, buf);
      ConformsByType(env, cfg, buf);
      if t == "EVENT" {
        EventIff(env, cfg, st', now, buf, Arg(msg, 1));
      } else if t == "REQ" || t == "COUNT" {
        QueryIff(cfg, st', now, buf, Arg(msg, 1), if |msg| >= 2 then msg[2..] else [], t == "REQ");
      } else if t == "NEG-OPEN" {
        QueryIff(cfg, st', now, buf, Arg(msg, 1), [Arg(msg, 2)], true);
      }
    } else {
      assert !Conforms(env, cfg, buf) by { NotConforming(env, cfg, buf); }
    }
  }

  lemma NotConforming(env: Env, cfg: Cfg, buf: Bytes)
    requires !NostrMessage(env.parse(buf))
    ensures !Conforms(env, cfg, buf)
  {
  }

  /** The policy on one message, type by type. */
  lemma ConformsByType(env: Env, cfg: Cfg, buf: Bytes)
    requires NostrMessage(env.parse(buf))
    ensures var msg, t := env.parse(buf).value.items, TypeOf(env, buf);
            Conforms(env, cfg, buf) <==>
              t in cfg.types &&
              if t == "EVENT" then EventBody(Arg(msg, 1)) && env.show(Get(Arg(msg, 1).fields, "kind").n) !in cfg.kindDeny
              else if t == "REQ" || t == "COUNT" then
                SubscriptionId(Arg(msg, 1)) && FiltersConform(cfg, if |msg| >= 2 then msg[2..] else [])
              else if t == "NEG-OPEN" then SubscriptionId(Arg(msg, 1)) && FiltersConform(cfg, [Arg(msg, 2)])
              else true
  {
    hide Get, EventConforms, FilterConforms;
    var msg := env.parse(buf).value.items;
    KindRead(env, cfg, Arg(msg, 1));
    NothingConforms(env, cfg);
    if |msg| < 3 { assert !FilterConforms(cfg, [Arg(msg, 2)][0]); }
  }

  lemma NothingConforms(env: Env, cfg: Cfg)
    ensures !EventConforms(env, cfg, Undefined) && !FilterConforms(cfg, Undefined)
  {
  }

  lemma EventIff(env: Env, cfg: Cfg, st: St, now: int, buf: Bytes, ev: Value)
    requires !st.killed
    ensures !InspectEvent(env, cfg, st, now, buf, ev).killed
       <==> Affordable(st.bEvent, now) && EventBody(ev) && env.show(Get(ev.fields, "kind").n) !in cfg.kindDeny
  {
    hide AfterTake, Affordable, Get, NoticeFrame, CloseFrame;
  }

  lemma QueryIff(cfg: Cfg, st: St, now: int, buf: Bytes, id: Value, filters: seq<Value>, opens: bool)
    requires !st.killed
    ensures !InspectQuery(cfg, st, now, buf, id, filters, opens).killed
       <==> && Affordable(st.bReq, now) && SubscriptionId(id) && FiltersConform(cfg, filters)
            && (opens && id.s !in st.subs ==> st.subCount < cfg.maxSubs)
  {
    hide FiltersFault, FiltersConform, AfterTake, Affordable, NoticeFrame, CloseFrame;
    FiltersFaultIffNonconforming(cfg, filters);
  }

  /** A bucket either pays for one more message or only refills. */
  lemma Charge(b: Bucket, rate: real, burst: real, times: seq<int>, before: int, now: int)
    requires Charged(b, rate, burst, times, before) && before <= now && rate >= 0.0
    ensures Charged(b, rate, burst, times, now)
    ensures Charged(AfterTake(b, now), rate, burst, times, now)
    ensures Affordable(b, now) ==> Charged(AfterTake(b, now), rate, burst, times + [now], now)
  {
    RefillKeepsPaid(b, times, now);
    if Affordable(b, now) { TakeKeepsPaid(b, times, now); }
  }

  lemma EventCharges(env: Env, cfg: Cfg, st: St, now: int, buf: Bytes, ev: Value)
    ensures var r := InspectEvent(env, cfg, st, now, buf, ev);
            && r.bMsg == st.bMsg && r.bReq == st.bReq && r.bEvent == AfterTake(st.bEvent, now)
            && (!r.killed ==> Affordable(st.bEvent, now))
  {
    hide AfterTake, Affordable, Get, NoticeFrame, CloseFrame;
  }

  lemma QueryCharges(cfg: Cfg, st: St, now: int, buf: Bytes, id: Value, filters: seq<Value>, opens: bool)
    ensures var r := InspectQuery(cfg, st, now, buf, id, filters, opens);
            && r.bMsg == st.bMsg && r.bEvent == st.bEvent && r.bReq == AfterTake(st.bReq, now)
            && (!r.killed ==> Affordable(st.bReq, now))
  {
    hide AfterTake, Affordable, FiltersFault, NoticeFrame, CloseFrame;
  }

  /** Which buckets inspection takes from: a message let through has been charged
      once to each of its lanes and to no other. */
  lemma InspectCharges(env: Env, cfg: Cfg, st: St, now: int, buf: Bytes)
    requires !st.killed
    ensures var r := Inspect(env, cfg, st, now, buf);
            && r.bMsg == AfterTake(st.bMsg, now)
            && r.bEvent in {st.bEvent, AfterTake(st.bEvent, now)}
            && r.bReq in {st.bReq, AfterTake(st.bReq, now)}
            && (!r.killed ==>
                 && Affordable(st.bMsg, now)
                 && (InLane(env, Publishing, buf) ==> Affordable(st.bEvent, now))
                 && (InLane(env, Querying, buf) ==> Affordable(st.bReq, now))
                 && r.bEvent == (if InLane(env, Publishing, buf) then AfterTake(st.bEvent, now) else st.bEvent)
                 && r.bReq == (if InLane(env, Querying, buf) then AfterTake(st.bReq, now) else st.bReq))
  {
    hide AfterTake, Affordable, InspectEvent, InspectQuery, NoticeFrame, CloseFrame;
    if NostrMessage(env.parse(buf)) {
      var st' := st.(bMsg := AfterTake(st.bMsg, now));
      var msg := env.parse(buf).value.items;
      EventCharges(env, cfg, st', now, buf, Arg(msg, 1));
      var filters := if |msg| >= 2 then msg[2..] else [];
      QueryCharges(cfg, st', now, buf, Arg(msg, 1), filters, msg[0].s == "REQ");
      QueryCharges(cfg, st', now, buf, Arg(msg, 1), [Arg(msg, 2)], true);
    }
  }

  lemma InspectPriced(env: Env, cfg: Cfg, st: St, before: int, now: int, buf: Bytes)
    requires !st.killed && SaneRates(cfg) && before <= now && Priced(env, cfg, BooksOf(st), before)
    ensures Priced(env, cfg, BooksOf(Inspect(env, cfg, st, now, buf)), now)
  {
    hide Inspect, AfterTake, Affordable, Charged, NoticeFrame, CloseFrame, Times;
    var r := Inspect(env, cfg, st, now, buf);
    InspectOutcome(env, cfg, st, now, buf);
    InspectCharges(env, cfg, st, now, buf);
    LogOneMore(env, st.accepted, Accepted(now, buf));
    Charge(st.bMsg, cfg.msgRate, cfg.msgBurst, Times(env, EveryMessage, st.accepted), before, now);
    Charge(st.bEvent, cfg.eventRate, cfg.eventBurst, Times(env, Publishing, st.accepted), before, now);
    Charge(st.bReq, cfg.reqRate, cfg.reqBurst, Times(env, Querying, st.accepted), before, now);
    if r.killed {
      assert r.accepted == st.accepted;
    } else {
      var log := st.accepted + [Accepted(now, buf)];
      assert Times(env, EveryMessage, log) == Times(env, EveryMessage, st.accepted) + [now];
      assert !InLane(env, Publishing, buf) ==> Times(env, Publishing, log) == Times(env, Publishing, st.accepted);
      assert !InLane(env, Querying, buf) ==> Times(env, Querying, log) == Times(env, Querying, st.accepted);
    }
  }

  lemma InspectKeeps(env: Env, cfg: Cfg, timed: bool, st: St, before: int, now: int, buf: Bytes)
    requires !st.killed && (timed ==> before <= now) && InOrder(env, cfg, BooksOf(st), timed, before)
    ensures InOrder(env, cfg, BooksOf(Inspect(env, cfg, st, now, buf)), timed, now)
  {
    hide Inspect, Tracked, Charged, Conforms, NoticeFrame, CloseFrame;
    InspectTracks(env, cfg, st, now, buf);
    InspectOutcome(env, cfg, st, now, buf);
    if !Inspect(env, cfg, st, now, buf).killed { LetThroughIff(env, cfg, st, now, buf); }
    if timed && SaneRates(cfg) { InspectPriced(env, cfg, st, before, now, buf); }
  }

  lemma Later(env: Env, cfg: Cfg, timed: bool, b: Books, before: int, now: int)
    requires InOrder(env, cfg, b, timed, before) && (timed ==> before <= now)
    ensures InOrder(env, cfg, b, timed, now)
  {
  }

  /** Outside inspection the accounts do not move. */
  lemma TakeFrameKeeps(env: Env, cfg: Cfg, timed: bool, st: St, before: int, now: int)
    requires !st.killed && (timed ==> before <= now) && InOrder(env, cfg, BooksOf(st), timed, before) && NextOf(cfg, st).Take?
    ensures InOrder(env, cfg, BooksOf(TakeFrame(env, cfg, st, now)), timed, now)
  {
    hide Inspect, InOrder, NoticeFrame, CloseFrame, Flatten, Payload;
    var n := NextOf(cfg, st);
    var parts := st.msgParts + [Payload(st.acc, n)];
    var whole := Hold(st, n).(msgParts := [], msgLen := 0, inMsg := !n.fin, msgReads := 0);
    assert BooksOf(whole) == BooksOf(st);
    InspectKeeps(env, cfg, timed, whole, before, now, Flatten(parts));
    Later(env, cfg, timed, BooksOf(st), before, now);
  }

  lemma {:induction false} PumpKeeps(env: Env, cfg: Cfg, timed: bool, st: St, before: int, now: int)
    requires (timed ==> before <= now) && InOrder(env, cfg, BooksOf(st), timed, before)
    ensures InOrder(env, cfg, BooksOf(Pump(env, cfg, st, now)), timed, now)
    decreases |st.acc|
  {
    hide TakeFrame, InOrder, NextFrame, NoticeFrame, CloseFrame;
    Later(env, cfg, timed, BooksOf(st), before, now);
    if !st.killed {
      match NextOf(cfg, st)
      case Wait(need) =>
        assert BooksOf(st.(need := need)) == BooksOf(st);
      case Reject(rule) =>
        assert BooksOf(Violate(st, rule)) == BooksOf(st);
      case Take(_, _, _, _) =>
        TakeFrameKeeps(env, cfg, timed, st, before, now);
        PumpKeeps(env, cfg, timed, TakeFrame(env, cfg, st, now), now, now);
    }
  }

  lemma ClassifyKeeps(env: Env, cfg: Cfg, timed: bool, st: St, r: Read, end: nat, before: int)
    requires end <= |st.hs| && (timed ==> before <= r.now) && InOrder(env, cfg, BooksOf(st), timed, before)
    ensures InOrder(env, cfg, BooksOf(Classify(env, cfg, st, r, end)), timed, r.now)
  {
    hide Pump, InOrder, BareLf, IsUpgrade, NoticeFrame, CloseFrame;
    Later(env, cfg, timed, BooksOf(st), before, r.now);
    var open := st.(hs := [], sends := st.sends + [env.recode(st.hs[..end])], mode := WebSocket, acc := st.hs[end..]);
    assert BooksOf(open) == BooksOf(st);
    PumpKeeps(env, cfg, timed, open, before, r.now);
  }

  lemma HandshakeKeeps(env: Env, cfg: Cfg, timed: bool, st: St, r: Read, before: int)
    requires (timed ==> before <= r.now) && InOrder(env, cfg, BooksOf(st), timed, before)
    ensures InOrder(env, cfg, BooksOf(HandshakeRead(env, cfg, st, r)), timed, r.now)
  {
    hide Classify, InOrder, BlockEnd, NoticeFrame, CloseFrame;
    Later(env, cfg, timed, BooksOf(st), before, r.now);
    var st3 := st.(hsReads := st.hsReads + 1, hs := st.hs + r.data, hsScanned := |st.hs + r.data|);
    assert BooksOf(st3) == BooksOf(st);
    var end := BlockEnd(st3.hs, st.hsScanned - 2);
    if end >= 0 { ClassifyKeeps(env, cfg, timed, st3, r, end, before); }
  }

  lemma WebSocketKeeps(env: Env, cfg: Cfg, timed: bool, st: St, r: Read, before: int)
    requires (timed ==> before <= r.now) && InOrder(env, cfg, BooksOf(st), timed, before)
    ensures InOrder(env, cfg, BooksOf(WebSocketRead(env, cfg, st, r)), timed, r.now)
  {
    hide Pump, InOrder, Flatten, NoticeFrame, CloseFrame;
    Later(env, cfg, timed, BooksOf(st), before, r.now);
    var held := st.(msgReads := st.msgReads + 1, chunks := st.chunks + [r.data], pendingLen := st.pendingLen + |r.data|);
    var whole := held.(acc := Unparsed(held), chunks := [], pendingLen := 0);
    assert BooksOf(whole) == BooksOf(st);
    PumpKeeps(env, cfg, timed, whole, before, r.now);
  }

  lemma OnDataKeeps(env: Env, cfg: Cfg, timed: bool, st: St, r: Read, before: int)
    requires (timed ==> before <= r.now) && InOrder(env, cfg, BooksOf(st), timed, before)
    ensures InOrder(env, cfg, BooksOf(OnData(env, cfg, st, r)), timed, r.now)
  {
    hide HandshakeRead, WebSocketRead, InOrder, NoticeFrame, CloseFrame;
    Later(env, cfg, timed, BooksOf(st), before, r.now);
    var st' := Recheck(cfg, st, r);
    assert BooksOf(st') == BooksOf(st);
    HandshakeKeeps(env, cfg, timed, st', r, before);
    WebSocketKeeps(env, cfg, timed, st', r, before);
  }

  lemma OpenInOrder(env: Env, cfg: Cfg, timed: bool, start: int)
    ensures InOrder(env, cfg, BooksOf(Open(cfg, start)), timed, start)
  {
  }

  lemma {:induction false} RunKeeps(env: Env, cfg: Cfg, start: int, rs: seq<Read>)
    ensures InOrder(env, cfg, BooksOf(Run(env, cfg, Open(cfg, start), rs)), Timely(start, rs),
                    if rs == [] then start else rs[|rs| - 1].now)
  {
    hide OnData, InOrder;
    if rs == [] {
      OpenInOrder(env, cfg, true, start);
    } else {
      var before := rs[..|rs| - 1];
      var st := Run(env, cfg, Open(cfg, start), before);
      var last := if before == [] then start else before[|before| - 1].now;
      RunKeeps(env, cfg, start, before);
      Untimed(env, cfg, BooksOf(st), Timely(start, before), Timely(start, rs), last);
      OnDataKeeps(env, cfg, Timely(start, rs), st, rs[|rs| - 1], last);
    }
  }

  lemma Untimed(env: Env, cfg: Cfg, b: Books, timed: bool, timed': bool, now: int)
    requires InOrder(env, cfg, b, timed, now) && (timed' ==> timed)
    ensures InOrder(env, cfg, b, timed', now)
  {
  }

  /** At every point of every session the open subscriptions are exactly those
      the forwarded messages opened and did not close, the counter is their
      number, within the limit, and it never needs its clamp at zero. */
  lemma SubscriptionsExact(env: Env, cfg: Cfg, start: int, rs: seq<Read>, states: seq<St>, k: nat)
    requires History(env, cfg, Open(cfg, start), rs, states) && k <= |rs|
    ensures var st := states[k];
            && st.subs == OpenIds(env, st.accepted)
            && st.subCount == |st.subs| <= AtLeastZero(cfg.maxSubs)
            && (forall id :: id in st.subs ==> st.subCount > 0)
  {
    hide OnData, History, Run, Open, Conforming, Priced;
    HistoryKeeps(env, cfg, start, rs, states, k);
  }

  lemma HistoryKeeps(env: Env, cfg: Cfg, start: int, rs: seq<Read>, states: seq<St>, k: nat)
    requires History(env, cfg, Open(cfg, start), rs, states) && k <= |rs|
    ensures InOrder(env, cfg, BooksOf(states[k]), Timely(start, rs[..k]), if k == 0 then start else rs[k - 1].now)
  {
    hide OnData, InOrder, Run;
    HistoryRuns(env, cfg, Open(cfg, start), rs, states, k);
    RunKeeps(env, cfg, start, rs[..k]);
  }

  /** Every message let through is one the policy admits. */
  lemma ForwardedConform(env: Env, cfg: Cfg, start: int, rs: seq<Read>, states: seq<St>, k: nat)
    requires History(env, cfg, Open(cfg, start), rs, states) && k <= |rs|
    ensures forall i :: 0 <= i < |states[k].accepted| ==> Conforms(env, cfg, states[k].accepted[i].body)
  {
    hide OnData, History, Run, Open, Conforms, Counted, Priced;
    HistoryKeeps(env, cfg, start, rs, states, k);
  }

  function RateOf(cfg: Cfg, lane: Lane): real {
    match lane case EveryMessage => cfg.msgRate case Publishing => cfg.eventRate case Querying => cfg.reqRate
  }

  function BurstOf(cfg: Cfg, lane: Lane): real {
    match lane case EveryMessage => cfg.msgBurst case Publishing => cfg.eventBurst case Querying => cfg.reqBurst
  }

  lemma LanePaid(env: Env, cfg: Cfg, start: int, rs: seq<Read>, states: seq<St>, k: nat, lane: Lane)
    requires History(env, cfg, Open(cfg, start), rs, states) && k <= |rs| && Timely(start, rs) && SaneRates(cfg)
    ensures Bounded(RateOf(cfg, lane), BurstOf(cfg, lane), Times(env, lane, states[k].accepted))
  {
    hide OnData, Run, Open, Counted, Conforming, Times, Bounded;
    HistoryKeeps(env, cfg, start, rs, states, k);
    assert Timely(start, rs[..k]);
  }

  /** In any span of `ms` milliseconds of any session, the messages let through
      in a lane are at most its burst plus its rate times the span. */
  lemma ForwardedWithinRate(env: Env, cfg: Cfg, start: int, rs: seq<Read>, states: seq<St>, k: nat,
                            lane: Lane, from: int, ms: nat)
    requires History(env, cfg, Open(cfg, start), rs, states) && k <= |rs| && Timely(start, rs)
    requires SaneRates(cfg) && BurstOf(cfg, lane) >= 0.0
    ensures CountIn(Times(env, lane, states[k].accepted), from, from + ms) as real
              <= BurstOf(cfg, lane) + ms as real / 1000.0 * RateOf(cfg, lane)
  {
    hide OnData, Run, Open, Times, Bounded, CountIn;
    LanePaid(env, cfg, start, rs, states, k, lane);
    WindowBound(RateOf(cfg, lane), BurstOf(cfg, lane), Times(env, lane, states[k].accepted), from, ms);
  }
}
