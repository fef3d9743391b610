/** The inspector's frame reader against the independent receiver. */
module Agreement {
  import opened Wrappers
  import opened Bytes
  import opened Policy
  import opened Frames
  import Octets
  import Relay

  /** A payload the client has masked with any key is what the inspector unmasks
      it to. */
  lemma MaskingUndone(payload: Bytes, key: Bytes)
    requires |key| == 4
    ensures Unmask(Unmask(payload, key), key) == payload
  {
    hide Xor;
    forall i | 0 <= i < |payload| ensures Xor(Xor(payload[i], key[i % 4]), key[i % 4]) == payload[i] {
      Octets.XorUndone(payload[i], key[i % 4]);
    }
  }

  lemma SameBody(acc: Bytes, off: nat, len: nat)
    requires 2 <= off && off + 4 + len <= |acc| && acc[1] / 128 == 1
    ensures Relay.Body(acc, off + 4, off + 4 + len) == Unmask(acc[off + 4..off + 4 + len], acc[off..off + 4])
  {
    hide Xor, Octets.ByDigits;
    var body, key := acc[off + 4..off + 4 + len], acc[off..off + 4];
    forall i | 0 <= i < len ensures Octets.ByDigits(acc[off + 4 + i], key[i % 4]) == Xor(body[i], key[i % 4]) {
      Octets.XorByDigits(acc[off + 4 + i], key[i % 4]);
    }
  }

  lemma BigEndianU16(b: Bytes, at: nat)
    requires at + 2 <= |b|
    ensures Relay.BigEndian(b[at..at + 2]) == U16(b, at)
  {
    var s := b[at..at + 2];
    assert s[..1] == [s[0]] && s[..1][..0] == [];
    assert Relay.BigEndian(s[..1]) == s[0] as nat;
  }

  lemma BigEndianSplit(a: Bytes, x: byte, y: byte)
    ensures Relay.BigEndian(a + [x, y]) == Relay.BigEndian(a) * 0x1_0000 + x as nat * 0x100 + y as nat
  {
    var s := a + [x, y];
    assert s[..|s| - 1] == a + [x] && (a + [x])[..|a|] == a;
  }

  lemma BigEndianU64(b: Bytes)
    requires |b| >= 10
    ensures Relay.BigEndian(b[2..10]) == U32(b, 2) * 0x1_0000_0000 + U32(b, 6)
  {
    BigEndianU16(b, 2);
    assert b[2..4] + [b[4], b[5]] == b[2..6] && b[2..6] + [b[6], b[7]] == b[2..8] && b[2..8] + [b[8], b[9]] == b[2..10];
    BigEndianSplit(b[2..4], b[4], b[5]);
    BigEndianSplit(b[2..6], b[6], b[7]);
    BigEndianSplit(b[2..8], b[8], b[9]);
  }

  lemma SameExtent(acc: Bytes, inMsg: bool, msgLen: nat, maxMsg: int)
    requires NextFrame(acc, inMsg, msgLen, maxMsg).Take?
    ensures var n := NextFrame(acc, inMsg, msgLen, maxMsg);
            && Relay.Extent(acc) == Some((n.off + 4, n.End()))
            && acc[1] / 128 == 1 && acc[0] / 16 % 8 == 0 && (acc[0] / 128 == 1) == n.fin && acc[0] % 16 == n.op
  {
    if acc[1] % 0x80 == 126 { BigEndianU16(acc, 2); }
    if acc[1] % 0x80 == 127 { BigEndianU64(acc); }
  }

  /** The frame the inspector takes is, byte for byte, the first frame the
      receiver sees, with the same flags and the same unmasked payload. */
  lemma SameFrame(acc: Bytes, inMsg: bool, msgLen: nat, maxMsg: int)
    requires NextFrame(acc, inMsg, msgLen, maxMsg).Take?
    ensures var n := NextFrame(acc, inMsg, msgLen, maxMsg);
            Relay.FirstFrame(acc[..n.End()])
              == Some((Relay.Frame(n.fin, 0, n.op, true, Payload(acc, n)), n.End()))
  {
    var n := NextFrame(acc, inMsg, msgLen, maxMsg);
    SameExtent(acc, inMsg, msgLen, maxMsg);
    SameBody(acc, n.off, n.len);
    var raw := acc[..n.End()];
    assert raw + acc[n.End()..] == acc;
    assert Relay.Extent(raw).Some?;
    Relay.ExtentStands(raw, acc[n.End()..]);
    Relay.BodyStands(raw, acc[n.End()..], n.off + 4, n.End());
  }

  lemma WaitMeansNoFrame(acc: Bytes, inMsg: bool, msgLen: nat, maxMsg: int)
    requires NextFrame(acc, inMsg, msgLen, maxMsg).Wait?
    ensures Relay.FirstFrame(acc) == None
  {
    hide Relay.Body, Relay.BigEndian;
    if |acc| >= 4 && acc[1] % 0x80 == 126 { BigEndianU16(acc, 2); }
    if |acc| >= 10 && acc[1] % 0x80 == 127 { BigEndianU64(acc); }
  }

  /** What is waited for is the end of what the header has announced so far: its
      first two octets, then its length field, then the whole frame. */
  lemma NeedIsExact(acc: Bytes, inMsg: bool, msgLen: nat, maxMsg: int)
    requires NextFrame(acc, inMsg, msgLen, maxMsg).Wait?
    ensures NextFrame(acc, inMsg, msgLen, maxMsg).need ==
              if |acc| < 2 then 2
              else match Relay.Extent(acc)
                   case None => if acc[1] % 128 == 126 then 4 else 10
                   case Some((_, end)) => end
  {
    hide Relay.Body, Relay.BigEndian;
    if |acc| >= 4 && acc[1] % 0x80 == 126 { BigEndianU16(acc, 2); }
    if |acc| >= 10 && acc[1] % 0x80 == 127 { BigEndianU64(acc); }
  }

  /** A frame of sections 5.2 to 5.5 that the policy lets a client send now:
      text or control, in its place, within the message size. */
  predicate Admissible(f: Relay.Frame, inMsg: bool, msgLen: nat, maxMsg: int) {
    && f.masked && f.rsv == 0 && |f.payload| < 0x1_0000_0000
    && if f.op >= 0x8 then f.fin && |f.payload| <= 125
       else f.op == (if inMsg then 0x0 else 0x1) && msgLen + |f.payload| <= maxMsg
  }

  /** Of the whole frames the receiver sees, the inspector takes exactly the
      admissible ones. */
  lemma TakenIffAdmissible(acc: Bytes, inMsg: bool, msgLen: nat, maxMsg: int)
    requires Relay.FirstFrame(acc).Some?
    ensures NextFrame(acc, inMsg, msgLen, maxMsg).Take?
       <==> Admissible(Relay.FirstFrame(acc).value.0, inMsg, msgLen, maxMsg)
  {
    hide Relay.Body;
    if acc[1] % 0x80 == 126 { BigEndianU16(acc, 2); }
    if acc[1] % 0x80 == 127 { BigEndianU64(acc); }
    var (start, end) := Relay.Extent(acc).value;
    BodyLength(acc, start, end);
  }

  lemma BodyLength(b: Bytes, start: nat, end: nat)
    requires 2 <= start <= end <= |b| && (b[1] / 128 == 1 ==> 6 <= start)
    ensures |Relay.Body(b, start, end)| == end - start
  {
  }

  lemma OneFrame(s: Relay.State, raw: Bytes)
    requires Relay.FirstFrame(raw).Some? && Relay.FirstFrame(raw).value.1 == |raw|
    ensures Relay.Receive(s, raw) == (Relay.Absorb(s, Relay.FirstFrame(raw).value.0), [])
  {
  }

  lemma ZeroKey(payload: Bytes)
    ensures forall i :: 0 <= i < |payload| ==> Octets.ByDigits(payload[i], 0) == payload[i]
  {
    hide Octets.ByDigits;
    forall i | 0 <= i < |payload| ensures Octets.ByDigits(payload[i], 0) == payload[i] {
      Octets.XorZero(payload[i]);
      Octets.XorByDigits(payload[i], 0);
    }
  }

  /** An injected frame, masked or not, is read back whole: final, with its
      opcode and its payload. */
  lemma InjectedFrameReadsBack(op: byte, payload: Bytes, masked: bool)
    requires op < 0x10 && |payload| < 0x1_0000
    ensures var f := WsFrame(op, payload, masked);
            Relay.FirstFrame(f) == Some((Relay.Frame(true, 0, op, masked, payload), |f|))
  {
    var f := WsFrame(op, payload, masked);
    InjectedExtent(op, payload, masked);
    ZeroKey(payload);
    assert f[|f| - |payload|..] == payload;
    if masked { assert f[|f| - |payload| - 4..|f| - |payload|] == [0, 0, 0, 0]; }
    assert Relay.Body(f, |f| - |payload|, |f|) == payload;
  }

  lemma InjectedExtent(op: byte, payload: Bytes, masked: bool)
    requires op < 0x10 && |payload| < 0x1_0000
    ensures var f := WsFrame(op, payload, masked);
            && |f| >= 2 && f[0] == 0x80 + op && (f[1] / 128 == 1) == masked
            && Relay.Extent(f) == Some((|f| - |payload|, |f|))
  {
    var f := WsFrame(op, payload, masked);
    assert f[0] == 0x80 + op;
    if |payload| < 126 {
      assert f[1] == (if masked then 0x80 else 0) + |payload|;
    } else {
      assert f[1] == (if masked then 0x80 else 0) + 126 && f[2] == |payload| / 0x100 && f[3] == |payload| % 0x100;
      BigEndianU16(f, 2);
    }
  }

  /** The Close injected on a violation is a control frame: it adds nothing to
      what the receiver has reassembled. */
  lemma CloseIsTransparent(s: Relay.State, rule: Rule)
    ensures Relay.Receive(s, CloseFrame(rule, true)) == (s, [])
  {
    var payload := [0x03, 0xf0] + Ascii(RuleText(rule));
    InjectedFrameReadsBack(OP_CLOSE, payload, true);
    OneFrame(s, CloseFrame(rule, true));
  }
}
