/** An independent WebSocket receiver: what a relay that follows RFC 6455
    sections 5.2 to 5.4 makes of a client's byte stream. */
module Relay {
  import opened Wrappers
  import opened Bytes
  import Octets

  datatype Frame = Frame(fin: bool, rsv: byte, op: byte, masked: bool, payload: Bytes)

  /** Network byte order over any number of bytes. */
  function BigEndian(b: Bytes): nat {
    if b == [] then 0 else BigEndian(b[..|b| - 1]) * 256 + b[|b| - 1]
  }

  /** Payload length field and the bytes it takes up (section 5.2). */
  function LengthField(b: Bytes): Option<(nat, nat)>
    requires |b| >= 2
  {
    var first := b[1] % 128;
    if first < 126 then Some((first, 2))
    else
      var wide := if first == 126 then 2 else 8;
      if |b| < 2 + wide then None else Some((BigEndian(b[2..2 + wide]), 2 + wide))
  }

  /** Where the payload starts and ends, once the header is in. */
  function Extent(b: Bytes): (r: Option<(nat, nat)>)
    ensures r.Some? ==> 2 <= |b| && 2 <= r.value.0 <= r.value.1
    ensures r.Some? && b[1] / 128 == 1 ==> 6 <= r.value.0
  {
    if |b| < 2 || LengthField(b).None? then None
    else
      var (len, at) := LengthField(b).value;
      var start := if b[1] / 128 == 1 then at + 4 else at;
      Some((start, start + len))
  }

  /** Section 5.3: a masked octet is the exclusive or with the key's. */
  function Body(b: Bytes, start: nat, end: nat): Bytes
    requires 2 <= start <= end <= |b| && (b[1] / 128 == 1 ==> 6 <= start)
  {
    if b[1] / 128 == 1 then
      var key := b[start - 4..start];
      seq(end - start, i requires 0 <= i < end - start => Octets.ByDigits(b[start + i], key[i % 4]))
    else b[start..end]
  }

  /** The first frame of the stream and its size, once all of it is in. */
  function FirstFrame(b: Bytes): (r: Option<(Frame, nat)>)
    ensures r.Some? ==> 2 <= r.value.1 <= |b|
  {
    match Extent(b)
    case None => None
    case Some((start, end)) =>
      if |b| < end then None
      else Some((Frame(b[0] / 128 == 1, b[0] / 16 % 8, b[0] % 16, b[1] / 128 == 1, Body(b, start, end)), end))
  }

  /** Messages delivered so far, and the one being reassembled, if any. */
  datatype State = Broken | Reading(messages: seq<Bytes>, partial: Option<Bytes>)

  const START := Reading([], None)

  /** Section 5.4: control frames may sit between fragments and are not part
      of any message. An unmasked client frame or a reserved bit fails the
      connection, and so does a fragment out of place. */
  function Absorb(s: State, f: Frame): State {
    if s.Broken? || !f.masked || f.rsv != 0 then Broken
    else if f.op >= 0x8 then
      if f.fin && |f.payload| <= 125 then s else Broken
    else if (f.op == 0x0) != s.partial.Some? then Broken
    else
      var whole := (if s.partial.Some? then s.partial.value else []) + f.payload;
      if f.fin then Reading(s.messages + [whole], None) else Reading(s.messages, Some(whole))
  }

  /** Everything the receiver gets out of `b`, and the bytes it still holds. */
  function Receive(s: State, b: Bytes): (State, Bytes)
    decreases |b|
  {
    match FirstFrame(b)
    case None => (s, b)
    case Some((f, size)) => Receive(Absorb(s, f), b[size..])
  }

  lemma ExtentStands(a: Bytes, b: Bytes)
    requires Extent(a).Some?
    ensures Extent(a + b) == Extent(a)
  {
    var (len, at) := LengthField(a).value;
    assert (a + b)[1] == a[1];
    if at > 2 { assert (a + b)[2..at] == a[2..at]; }
  }

  lemma BodyStands(a: Bytes, b: Bytes, start: nat, end: nat)
    requires 2 <= start <= end <= |a| && (a[1] / 128 == 1 ==> 6 <= start)
    ensures Body(a + b, start, end) == Body(a, start, end)
  {
    assert (a + b)[start..end] == a[start..end];
    if a[1] / 128 == 1 {
      assert (a + b)[start - 4..start] == a[start - 4..start];
    }
  }

  lemma FirstFrameStands(a: Bytes, b: Bytes)
    requires FirstFrame(a).Some?
    ensures FirstFrame(a + b) == FirstFrame(a)
  {
    ExtentStands(a, b);
    var (start, end) := Extent(a).value;
    BodyStands(a, b, start, end);
  }

  /** A stream cut at a frame boundary is received piece by piece. */
  lemma {:induction false} ReceiveAppend(s: State, a: Bytes, b: Bytes)
    requires Receive(s, a).1 == []
    ensures Receive(s, a + b) == Receive(Receive(s, a).0, b)
    decreases |a|
  {
    match FirstFrame(a)
    case None =>
      assert a + b == b;
    case Some((f, size)) =>
      FirstFrameStands(a, b);
      assert (a + b)[size..] == a[size..] + b;
      ReceiveAppend(Absorb(s, f), a[size..], b);
  }
}
