/** Where the HTTP header block ends, and what its lines say. */
module Handshake {
  import opened Bytes

  /** Length of the blank-line terminator that starts at the LF at `i`: LF LF
      or LF CR LF; 0 when there is none. */
  function TerminatorAt(buf: Bytes, i: nat): nat {
    if i + 1 >= |buf| || buf[i] != LF then 0
    else if buf[i + 1] == LF then 2
    else if buf[i + 1] == CR && i + 2 < |buf| && buf[i + 2] == LF then 3
    else 0
  }

  /** `end` is just past the first terminator at or after `from`; -1 if none. */
  predicate IsBlockEnd(buf: Bytes, from: int, end: int) {
    if end < 0 then
      end == -1 && forall i: nat :: from <= i < |buf| ==> TerminatorAt(buf, i) == 0
    else
      exists i: nat :: from <= i < |buf| && TerminatorAt(buf, i) > 0 && end == i + TerminatorAt(buf, i)
        && forall k: nat :: from <= k < i ==> TerminatorAt(buf, k) == 0
  }

  function BlockEnd(buf: Bytes, from: int): (end: int)
    ensures IsBlockEnd(buf, from, end)
    ensures end <= |buf|
    decreases |buf| - from
  {
    if from >= |buf| then -1
    else if from >= 0 && TerminatorAt(buf, from) > 0 then from + TerminatorAt(buf, from)
    else BlockEnd(buf, from + 1)
  }

  lemma BlockEndUnique(buf: Bytes, from: int, e1: int, e2: int)
    requires IsBlockEnd(buf, from, e1) && IsBlockEnd(buf, from, e2)
    ensures e1 == e2
  {
  }

  /** headerBlockEnd: the scan itself. `from` may be negative on early reads. */
  method HeaderBlockEnd(buf: Bytes, from: int) returns (end: int)
    ensures end == BlockEnd(buf, from)
  {
    var i := from;
    while i + 1 < |buf|
      invariant forall k: nat :: from <= k < i ==> TerminatorAt(buf, k) == 0
      decreases |buf| - i
    {
      if i >= 0 && buf[i] == LF {
        if buf[i + 1] == LF {
          assert TerminatorAt(buf, i) == 2;
          BlockEndUnique(buf, from, i + 2, BlockEnd(buf, from));
          return i + 2;
        }
        if buf[i + 1] == CR && i + 2 < |buf| && buf[i + 2] == LF {
          assert TerminatorAt(buf, i) == 3;
          BlockEndUnique(buf, from, i + 3, BlockEnd(buf, from));
          return i + 3;
        }
      }
      i := i + 1;
    }
    BlockEndUnique(buf, from, -1, BlockEnd(buf, from));
    return -1;
  }

  /** Resuming two bytes before the old end finds what a scan from the start
      finds, wherever the reads cut the terminator. */
  lemma ResumedScanExact(seen: Bytes, data: Bytes)
    requires BlockEnd(seen, 0) == -1
    ensures BlockEnd(seen + data, |seen| - 2) == BlockEnd(seen + data, 0)
  {
    var buf := seen + data;
    forall k: nat | k < |seen| - 2 ensures TerminatorAt(buf, k) == 0 {
      assert TerminatorAt(seen, k) == 0;
    }
    BlockEndUnique(buf, 0, BlockEnd(buf, |seen| - 2), BlockEnd(buf, 0));
  }

  /** Over any way of cutting the bytes into reads: the index the engine finds
      by rescanning from `scanned - 2` each time, or -1. */
  function ScanReads(cuts: seq<Bytes>): (int, Bytes) {
    if cuts == [] then (-1, [])
    else
      var (end, seen) := ScanReads(cuts[..|cuts| - 1]);
      var buf := seen + cuts[|cuts| - 1];
      (if end >= 0 then end else BlockEnd(buf, |seen| - 2), buf)
  }

  lemma {:induction false} ScanReadsExact(cuts: seq<Bytes>)
    ensures ScanReads(cuts) == (BlockEnd(Flatten(cuts), 0), Flatten(cuts))
  {
    if cuts != [] {
      var before, data := cuts[..|cuts| - 1], cuts[|cuts| - 1];
      ScanReadsExact(before);
      FlattenOne(before, data);
      assert before + [data] == cuts;
      if BlockEnd(Flatten(before), 0) == -1 {
        ResumedScanExact(Flatten(before), data);
      } else {
        BlockEndStands(Flatten(before), data);
      }
    }
  }

  /** Once the block has ended, later bytes do not move its end. */
  lemma BlockEndStands(a: Bytes, b: Bytes)
    requires BlockEnd(a, 0) >= 0
    ensures BlockEnd(a + b, 0) == BlockEnd(a, 0)
  {
    var end := BlockEnd(a, 0);
    var i: nat :| i < |a| && TerminatorAt(a, i) > 0 && end == i + TerminatorAt(a, i)
               && forall k: nat :: k < i ==> TerminatorAt(a, k) == 0;
    assert TerminatorAt(a + b, i) == TerminatorAt(a, i);
    forall k: nat | k < i ensures TerminatorAt(a + b, k) == 0 {
      assert TerminatorAt(a, k) == 0;
    }
    BlockEndUnique(a + b, 0, end, BlockEnd(a + b, 0));
  }

  /** A blank line, in either of its spellings, has just ended at `end`. */
  predicate BlankLineBefore(buf: Bytes, end: nat)
    requires end <= |buf|
  {
    && end >= 2 && buf[end - 1] == 10
    && (buf[end - 2] == 10 || (end >= 3 && buf[end - 2] == 13 && buf[end - 3] == 10))
  }

  /** The block ends at the first blank line, and not before there is one. */
  lemma BlockEndsAtFirstBlankLine(buf: Bytes)
    ensures var end := BlockEnd(buf, 0);
            if end < 0 then forall e: nat :: e <= |buf| ==> !BlankLineBefore(buf, e)
            else BlankLineBefore(buf, end) && forall e: nat :: e < end ==> !BlankLineBefore(buf, e)
  {
    forall e: nat | e <= |buf| && BlankLineBefore(buf, e) ensures 0 <= BlockEnd(buf, 0) <= e {
      BlankLineEndsBlock(buf, e);
    }
  }

  lemma BlankLineEndsBlock(buf: Bytes, e: nat)
    requires e <= |buf| && BlankLineBefore(buf, e)
    ensures 0 <= BlockEnd(buf, 0) <= e
  {
    var i := if buf[e - 2] == 10 then e - 2 else e - 3;
    assert TerminatorAt(buf, i) == e - i;
  }

  predicate BareLfAt(buf: Bytes, i: nat)
    requires i < |buf|
  {
    buf[i] == LF && (i == 0 || buf[i - 1] != CR)
  }

  predicate BareLf(buf: Bytes, upto: nat)
    requires upto <= |buf|
  {
    exists i: nat :: i < upto && BareLfAt(buf, i)
  }

  method HasBareLf(buf: Bytes, upto: nat) returns (r: bool)
    requires upto <= |buf|
    ensures r == BareLf(buf, upto)
  {
    for i := 0 to upto
      invariant forall k: nat :: k < i ==> !BareLfAt(buf, k)
    {
      if buf[i] == LF && (i == 0 || buf[i - 1] != CR) {
        assert BareLfAt(buf, i);
        return true;
      }
    }
    return false;
  }

  predicate CrlfCrlfAt(buf: Bytes, i: nat) {
    i + 4 <= |buf| && buf[i] == CR && buf[i + 1] == LF && buf[i + 2] == CR && buf[i + 3] == LF
  }

  /** In an accepted handshake the block ends at the first CRLF CRLF: the strict
      reader and the tolerant one agree on where the headers stop. */
  lemma AcceptedBlockEndsAtCrlfCrlf(buf: Bytes)
    requires BlockEnd(buf, 0) >= 0 && !BareLf(buf, BlockEnd(buf, 0))
    ensures BlockEnd(buf, 0) >= 4 && CrlfCrlfAt(buf, BlockEnd(buf, 0) - 4)
    ensures forall k: nat :: k < BlockEnd(buf, 0) - 4 ==> !CrlfCrlfAt(buf, k)
  {
    var end := BlockEnd(buf, 0);
    var i: nat :| i < |buf| && TerminatorAt(buf, i) > 0 && end == i + TerminatorAt(buf, i)
               && forall k: nat :: k < i ==> TerminatorAt(buf, k) == 0;
    assert !BareLfAt(buf, i) && !BareLfAt(buf, i + 1);
    forall k: nat | k < end - 4 ensures !CrlfCrlfAt(buf, k) {
      assert TerminatorAt(buf, k + 1) == 0;
    }
  }

  /** Lines ended by CRLF and nothing else; `line` is the one being read. */
  function StrictLines(b: Bytes, line: Bytes): (lines: seq<Bytes>)
    ensures |lines| > 0
  {
    if b == [] then [line]
    else if |b| >= 2 && b[0] == CR && b[1] == LF then [line] + StrictLines(b[2..], [])
    else StrictLines(b[1..], line + [b[0]])
  }

  function DropCr(line: Bytes): Bytes {
    if |line| > 0 && line[|line| - 1] == CR then line[..|line| - 1] else line
  }

  /** RFC 9112 section 2.2, line splitting: LF ends a line, a CR before it is
      ignored. */
  function TolerantLines(b: Bytes, line: Bytes): seq<Bytes> {
    if b == [] then [line]
    else if b[0] == LF then [DropCr(line)] + TolerantLines(b[1..], [])
    else TolerantLines(b[1..], line + [b[0]])
  }

  lemma {:induction false} SameLines(b: Bytes, line: Bytes)
    requires forall i: nat :: i < |b| ==> !BareLfAt(b, i)
    ensures StrictLines(b, line) == TolerantLines(b, line)
    decreases |b|
  {
    if b != [] {
      assert !BareLfAt(b, 0);
      if |b| >= 2 && b[0] == CR && b[1] == LF {
        forall i: nat | i < |b[2..]| ensures !BareLfAt(b[2..], i) { assert !BareLfAt(b, i + 2); }
        SameLines(b[2..], []);
        assert b[1..][0] == LF && b[1..][1..] == b[2..];
        assert DropCr(line + [b[0]]) == line;
      } else {
        forall i: nat | i < |b[1..]| ensures !BareLfAt(b[1..], i) { assert !BareLfAt(b, i + 1); }
        SameLines(b[1..], line + [b[0]]);
      }
    }
  }

  /** With a bare LF in them the tolerant reader sees more lines. */
  lemma {:induction false} MoreTolerantLines(b: Bytes, line1: Bytes, line2: Bytes)
    ensures |StrictLines(b, line1)| <= |TolerantLines(b, line2)|
    ensures (exists i: nat :: i < |b| && BareLfAt(b, i)) ==> |StrictLines(b, line1)| < |TolerantLines(b, line2)|
    decreases |b|
  {
    if b != [] {
      if |b| >= 2 && b[0] == CR && b[1] == LF {
        MoreTolerantLines(b[2..], [], []);
        assert b[1..][0] == LF && b[1..][1..] == b[2..];
        forall i: nat | i < |b| && BareLfAt(b, i) ensures i >= 2 && BareLfAt(b[2..], i - 2) { }
      } else {
        MoreTolerantLines(b[1..], line1 + [b[0]], if b[0] == LF then [] else line2 + [b[0]]);
        forall i: nat | i < |b| && i > 0 && BareLfAt(b, i) ensures BareLfAt(b[1..], i - 1) { }
      }
    }
  }

  /** The two readings of a header block give the same lines exactly when it has
      no bare LF, which is when it is accepted. */
  lemma SameLinesIff(b: Bytes)
    ensures StrictLines(b, []) == TolerantLines(b, []) <==> !BareLf(b, |b|)
  {
    if BareLf(b, |b|) { MoreTolerantLines(b, [], []); } else { SameLines(b, []); }
  }

  /** ASCII case folding, one byte of a pattern written in lower case. */
  predicate Folds(c: byte, p: byte) {
    c == p || (0x61 <= p <= 0x7a && c == p - 0x20)
  }

  predicate StartsFolded(b: Bytes, pattern: Bytes) {
    |pattern| <= |b| && forall i :: 0 <= i < |pattern| ==> Folds(b[i], pattern[i])
  }

  function SkipBlanks(b: Bytes): Bytes {
    if b != [] && (b[0] == 0x20 || b[0] == 0x09) then SkipBlanks(b[1..]) else b
  }

  const UPGRADE: Bytes := [0x75, 0x70, 0x67, 0x72, 0x61, 0x64, 0x65, 0x3a]
  const WEBSOCKET: Bytes := [0x77, 0x65, 0x62, 0x73, 0x6f, 0x63, 0x6b, 0x65, 0x74]

  /** upgrade:[ \t]*websocket, in any letter case, at the start of `b`. */
  predicate UpgradeLine(b: Bytes) {
    StartsFolded(b, UPGRADE) && StartsFolded(SkipBlanks(b[8..]), WEBSOCKET)
  }

  /** `b` spells a word, letter by letter in either case. */
  predicate Spells(b: Bytes, lower: string, upper: string) {
    && |b| == |lower| == |upper|
    && forall i :: 0 <= i < |b| ==> b[i] == lower[i] as int || b[i] == upper[i] as int
  }

  /** A header line that asks for a WebSocket: the name and the colon, any number
      `n` of spaces and tabs, and the value. */
  predicate AsksForWebSocket(line: Bytes) {
    exists n: nat :: n <= |line| && AsksAfter(line, n)
  }

  predicate AsksAfter(line: Bytes, n: nat) {
    && n + 17 <= |line|
    && Spells(line[..8], "upgrade:", "UPGRADE:")
    && (forall i :: 8 <= i < n + 8 ==> line[i] == 32 || line[i] == 9)
    && Spells(line[n + 8..n + 17], "websocket", "WEBSOCKET")
  }

  lemma {:induction false} SkipBlanksTo(b: Bytes, n: nat)
    requires n <= |b| && (forall i :: 0 <= i < n ==> b[i] == 0x20 || b[i] == 0x09)
    requires n < |b| ==> b[n] != 0x20 && b[n] != 0x09
    ensures SkipBlanks(b) == b[n..]
  {
    if n > 0 {
      SkipBlanksTo(b[1..], n - 1);
      assert b[1..][n - 1..] == b[n..];
    }
  }

  lemma {:induction false} BlankRun(b: Bytes) returns (n: nat)
    ensures n <= |b| && (forall i :: 0 <= i < n ==> b[i] == 0x20 || b[i] == 0x09)
    ensures n < |b| ==> b[n] != 0x20 && b[n] != 0x09
  {
    if b == [] || (b[0] != 0x20 && b[0] != 0x09) {
      n := 0;
    } else {
      n := BlankRun(b[1..]);
      n := n + 1;
      assert forall i :: 1 <= i < n ==> b[i] == b[1..][i - 1];
    }
  }

  lemma SpellsUpgrade(b: Bytes)
    ensures StartsFolded(b, UPGRADE) <==> |b| >= 8 && Spells(b[..8], "upgrade:", "UPGRADE:")
  {
    if |b| >= 8 {
      assert forall i :: 0 <= i < 8 ==>
        (Folds(b[i], UPGRADE[i]) <==> b[..8][i] == "upgrade:"[i] as int || b[..8][i] == "UPGRADE:"[i] as int);
    }
  }

  lemma SpellsWebSocket(b: Bytes)
    ensures StartsFolded(b, WEBSOCKET) <==> |b| >= 9 && Spells(b[..9], "websocket", "WEBSOCKET")
  {
    if |b| >= 9 {
      assert forall i :: 0 <= i < 9 ==>
        (Folds(b[i], WEBSOCKET[i]) <==> b[..9][i] == "websocket"[i] as int || b[..9][i] == "WEBSOCKET"[i] as int);
    }
  }

  /** The pattern the engine searches for means just that. */
  lemma UpgradeLineMeans(line: Bytes)
    ensures UpgradeLine(line) <==> AsksForWebSocket(line)
  {
    hide StartsFolded, SkipBlanks, Spells;
    SpellsUpgrade(line);
    if UpgradeLine(line) {
      var n := BlankRun(line[8..]);
      SkipBlanksTo(line[8..], n);
      SpellsWebSocket(line[8..][n..]);
      assert line[8..][n..][..9] == line[n + 8..n + 17];
      assert forall i :: 8 <= i < n + 8 ==> line[i] == line[8..][i - 8];
      assert AsksAfter(line, n);
    }
    if AsksForWebSocket(line) {
      var n: nat :| n <= |line| && AsksAfter(line, n);
      WordIsNoBlank(line[n + 8..n + 17]);
      SkipBlanksTo(line[8..], n);
      SpellsWebSocket(line[8..][n..]);
      assert line[8..][n..][..9] == line[n + 8..n + 17];
    }
  }

  lemma WordIsNoBlank(b: Bytes)
    requires Spells(b, "websocket", "WEBSOCKET")
    ensures |b| == 9 && b[0] != 0x20 && b[0] != 0x09
  {
  }

  /** The engine's search: the pattern right after some CRLF. */
  predicate IsUpgrade(head: Bytes) {
    |head| >= 2 && ((head[0] == CR && head[1] == LF && UpgradeLine(head[2..])) || IsUpgrade(head[1..]))
  }

  lemma {:induction false} SkipBlanksStops(line: Bytes, tail: Bytes)
    requires tail == [] || tail[0] == CR
    ensures SkipBlanks(line + tail) == SkipBlanks(line) + tail
  {
    if line == [] {
      assert line + tail == tail;
    } else {
      assert (line + tail)[1..] == line[1..] + tail;
      if line[0] == 0x20 || line[0] == 0x09 { SkipBlanksStops(line[1..], tail); }
    }
  }

  lemma StartsFoldedStops(line: Bytes, tail: Bytes, pattern: Bytes)
    requires (tail == [] || tail[0] == CR) && forall i :: 0 <= i < |pattern| ==> pattern[i] > 0x2d
    ensures StartsFolded(line + tail, pattern) == StartsFolded(line, pattern)
  {
    if |line| < |pattern| && tail != [] {
      assert !Folds((line + tail)[|line|], pattern[|line|]);
    }
    if StartsFolded(line + tail, pattern) {
      forall i | 0 <= i < |pattern| ensures Folds(line[i], pattern[i]) {
        assert Folds((line + tail)[i], pattern[i]);
      }
    }
  }

  /** What follows the line does not take part in the match. */
  lemma UpgradeLineStops(line: Bytes, tail: Bytes)
    requires tail == [] || tail[0] == CR
    ensures UpgradeLine(line + tail) == UpgradeLine(line)
  {
    StartsFoldedStops(line, tail, UPGRADE);
    if StartsFolded(line, UPGRADE) {
      assert (line + tail)[8..] == line[8..] + tail;
      SkipBlanksStops(line[8..], tail);
      StartsFoldedStops(SkipBlanks(line[8..]), tail, WEBSOCKET);
    }
  }

  lemma {:induction false} FirstStrictLine(b: Bytes, line: Bytes) returns (tail: Bytes)
    ensures StrictLines(b, line)[0] + tail == line + b && (tail == [] || tail[0] == CR)
    decreases |b|
  {
    if b == [] {
      tail := [];
    } else if |b| >= 2 && b[0] == CR && b[1] == LF {
      tail := b;
    } else {
      tail := FirstStrictLine(b[1..], line + [b[0]]);
      assert line + [b[0]] + b[1..] == line + b;
    }
  }

  predicate SomeUpgradeLine(lines: seq<Bytes>) {
    exists k :: 1 <= k < |lines| && UpgradeLine(lines[k])
  }

  lemma {:induction false} UpgradeByLines(b: Bytes, line: Bytes)
    ensures IsUpgrade(b) <==> SomeUpgradeLine(StrictLines(b, line))
    decreases |b|
  {
    hide UpgradeLine;
    if b != [] {
      if |b| >= 2 && b[0] == CR && b[1] == LF {
        var rest := StrictLines(b[2..], []);
        var tail := FirstStrictLine(b[2..], []);
        assert [] + b[2..] == b[2..];
        UpgradeLineStops(rest[0], tail);
        UpgradeByLines(b[2..], []);
        assert b[1..][1..] == b[2..] && b[1..][0] == LF;
        assert StrictLines(b, line) == [line] + rest;
        if exists k :: 1 <= k < |rest| && UpgradeLine(rest[k]) {
          var k :| 1 <= k < |rest| && UpgradeLine(rest[k]);
          assert ([line] + rest)[k + 1] == rest[k];
        }
        assert ([line] + rest)[1] == rest[0];
      } else {
        UpgradeByLines(b[1..], line + [b[0]]);
        assert StrictLines(b, line) == StrictLines(b[1..], line + [b[0]]);
        assert IsUpgrade(b) == IsUpgrade(b[1..]);
      }
    }
  }

  /** Some line after the request line asks for a WebSocket. */
  predicate SomeLineAsks(lines: seq<Bytes>) {
    exists k :: 1 <= k < |lines| && AsksForWebSocket(lines[k])
  }

  /** In an accepted handshake both ways of splitting give the same lines, and
      the session is taken for a WebSocket exactly when some line after the
      request line asks for one. */
  lemma ReadingsCoincide(buf: Bytes)
    requires BlockEnd(buf, 0) >= 0 && !BareLf(buf, BlockEnd(buf, 0))
    ensures var head := buf[..BlockEnd(buf, 0)];
            && StrictLines(head, []) == TolerantLines(head, [])
            && (IsUpgrade(head) <==> SomeLineAsks(TolerantLines(head, [])))
  {
    var head := buf[..BlockEnd(buf, 0)];
    forall i: nat | i < |head| ensures !BareLfAt(head, i) { assert !BareLfAt(buf, i); }
    SameLines(head, []);
    UpgradeByLines(head, []);
    var lines := StrictLines(head, []);
    forall k | 0 <= k < |lines| ensures UpgradeLine(lines[k]) == AsksForWebSocket(lines[k]) {
      UpgradeLineMeans(lines[k]);
    }
  }
}
