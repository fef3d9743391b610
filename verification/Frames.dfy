/** The inspector's reading of one WebSocket frame, and the frames it injects. */
module Frames {
  import opened Bytes
  import opened Policy

  const OP_CONT: byte := 0x0
  const OP_TEXT: byte := 0x1
  const OP_BIN: byte := 0x2
  const OP_CLOSE: byte := 0x8

  function U16(b: Bytes, at: nat): nat
    requires at + 2 <= |b|
  {
    b[at] as nat * 0x100 + b[at + 1] as nat
  }

  function U32(b: Bytes, at: nat): nat
    requires at + 4 <= |b|
  {
    U16(b, at) * 0x1_0000 + U16(b, at + 2)
  }

  /** What the bytes at hand allow: wait for more of them, close the session,
      or take one whole frame of `off + 4 + len` bytes. */
  datatype Next =
    | Wait(need: nat)
    | Reject(rule: Rule)
    | Take(fin: bool, op: byte, off: nat, len: nat)
  {
    function End(): nat
      requires Take?
    {
      off + 4 + len
    }
  }

  predicate IsControl(op: byte) { op >= 0x8 }

  /** Checks made as soon as the header is in, before the payload arrives. */
  function Admit(fin: bool, op: byte, off: nat, len: nat, have: nat, inMsg: bool, msgLen: nat, maxMsg: int): Next {
    if IsControl(op) then
      if !fin || len > 125 then Reject(Protocol)
      else if have < off + 4 + len then Wait(off + 4 + len)
      else Take(fin, op, off, len)
    else if op == OP_BIN then Reject(BinaryFrame)
    else if op != OP_TEXT && op != OP_CONT then Reject(Protocol)
    else if op == OP_TEXT && inMsg then Reject(Protocol)
    else if op == OP_CONT && !inMsg then Reject(Protocol)
    else if msgLen + len > maxMsg then Reject(OversizedMessage)
    else if have < off + 4 + len then Wait(off + 4 + len)
    else Take(fin, op, off, len)
  }

  function NextFrame(acc: Bytes, inMsg: bool, msgLen: nat, maxMsg: int): (n: Next)
    ensures n.Take? ==> n.End() <= |acc| && 2 <= n.off <= 10
    ensures n.Wait? ==> |acc| < n.need
  {
    if |acc| < 2 then Wait(2)
    else if acc[0] / 0x10 % 8 != 0 then Reject(Protocol)
    else if acc[1] < 0x80 then Reject(Protocol)
    else
      var fin, op, short := acc[0] >= 0x80, acc[0] % 0x10, acc[1] % 0x80;
      if short == 126 then
        if |acc| < 4 then Wait(4)
        else Admit(fin, op, 4, U16(acc, 2), |acc|, inMsg, msgLen, maxMsg)
      else if short == 127 then
        if |acc| < 10 then Wait(10)
        else if U32(acc, 2) != 0 then Reject(OversizedMessage)
        else Admit(fin, op, 10, U32(acc, 6), |acc|, inMsg, msgLen, maxMsg)
      else Admit(fin, op, 2, short, |acc|, inMsg, msgLen, maxMsg)
  }

  /** XOR with the repeating 4-byte key. */
  function Unmask(payload: Bytes, key: Bytes): (r: Bytes)
    requires |key| == 4
    ensures |r| == |payload|
  {
    seq(|payload|, i requires 0 <= i < |payload| => Xor(payload[i], key[i % 4]))
  }

  /** The unmasking loop, in place over a copy of the payload. */
  method UnmaskInPlace(payload: array<byte>, key: Bytes)
    requires |key| == 4
    modifies payload
    ensures payload[..] == Unmask(old(payload[..]), key)
  {
    for i := 0 to payload.Length
      invariant forall k :: 0 <= k < i ==> payload[k] == Xor(old(payload[k]), key[k % 4])
      invariant forall k :: i <= k < payload.Length ==> payload[k] == old(payload[k])
    {
      payload[i] := Xor(payload[i], key[i % 4]);
    }
  }

  /** Payload of the frame a Take describes. */
  function Payload(acc: Bytes, n: Next): (r: Bytes)
    requires n.Take? && n.End() <= |acc|
    ensures |r| == n.len
  {
    Unmask(acc[n.off + 4..n.End()], acc[n.off..n.off + 4])
  }

  /** A final frame; a masked one has the all-zero key. The encoder refuses
      payloads of 65536 bytes and more. */
  function WsFrame(op: byte, payload: Bytes, masked: bool): Bytes
    requires op < 0x10 && |payload| < 0x1_0000
  {
    var len, bit := |payload|, if masked then 0x80 else 0;
    (if len < 126 then [0x80 + op, bit + len] else [0x80 + op, bit + 126, len / 0x100, len % 0x100])
      + (if masked then [0, 0, 0, 0] else []) + payload
  }

  /** A Close frame with status 1008 naming the rule. */
  function CloseFrame(rule: Rule, masked: bool): Bytes {
    WsFrame(OP_CLOSE, [0x03, 0xf0] + Ascii(RuleText(rule)), masked)
  }

  const NOTICE_HEAD := "[\"NOTICE\",\"fips-shield: connection closed: "

  function NoticeText(rule: Rule): string { NOTICE_HEAD + RuleText(rule) + "\"]" }

  function NoticeFrame(rule: Rule): Bytes {
    WsFrame(OP_TEXT, Ascii(NoticeText(rule)), false)
  }

  /** A decision to wait stands until the announced number of bytes is in. */
  lemma WaitStands(acc: Bytes, more: Bytes, inMsg: bool, msgLen: nat, maxMsg: int)
    requires NextFrame(acc, inMsg, msgLen, maxMsg).Wait?
    requires |acc + more| < NextFrame(acc, inMsg, msgLen, maxMsg).need
    ensures NextFrame(acc + more, inMsg, msgLen, maxMsg) == NextFrame(acc, inMsg, msgLen, maxMsg)
  {
    Extends(acc, more);
  }

  lemma Extends(acc: Bytes, more: Bytes)
    ensures forall i :: 0 <= i < |acc| ==> (acc + more)[i] == acc[i]
    ensures |acc| >= 4 ==> U16(acc + more, 2) == U16(acc, 2)
    ensures |acc| >= 10 ==> U32(acc + more, 2) == U32(acc, 2) && U32(acc + more, 6) == U32(acc, 6)
  {
  }

  /** A frame or a rejection seen in a prefix is seen in any extension. */
  lemma DecisionStands(acc: Bytes, more: Bytes, inMsg: bool, msgLen: nat, maxMsg: int)
    requires !NextFrame(acc, inMsg, msgLen, maxMsg).Wait?
    ensures NextFrame(acc + more, inMsg, msgLen, maxMsg) == NextFrame(acc, inMsg, msgLen, maxMsg)
    ensures var n := NextFrame(acc, inMsg, msgLen, maxMsg);
            n.Take? ==> (&& (acc + more)[..n.End()] == acc[..n.End()]
                         && (acc + more)[n.End()..] == acc[n.End()..] + more
                         && Payload(acc + more, n) == Payload(acc, n))
  {
    Extends(acc, more);
    var n := NextFrame(acc, inMsg, msgLen, maxMsg);
    if n.Take? {
      assert (acc + more)[n.off + 4..n.End()] == acc[n.off + 4..n.End()];
      assert (acc + more)[n.off..n.off + 4] == acc[n.off..n.off + 4];
    }
  }

  /** While waiting, the promise `need` is never more than one frame of the
      largest size a live message still admits. */
  lemma NeedBounded(acc: Bytes, inMsg: bool, msgLen: nat, maxMsg: int)
    requires NextFrame(acc, inMsg, msgLen, maxMsg).Wait?
    ensures var need := NextFrame(acc, inMsg, msgLen, maxMsg).need;
      need <= 139 || need <= 14 + maxMsg
  {
  }
}
