/** The proxy's tap: skips the HTTP upgrade, reads WebSocket frames as bytes
    arrive and joins fragmented messages (RFC 6455, section 5). */
module Tap {
  import opened Options
  import opened Parts

  type Bytes = seq<Byte>

  /** How many payload bytes of a message are kept. */
  const PREFIX: nat := 256
  const U64: nat := 0x1_0000_0000_0000_0000

  datatype Mask = Mask(b0: Byte, b1: Byte, b2: Byte, b3: Byte) {
    function At(i: nat): Byte {
      if i % 4 == 0 then b0 else if i % 4 == 1 then b1 else if i % 4 == 2 then b2 else b3
    }
  }

  function Pow2(n: nat): (r: nat)
    ensures r > 0
  {
    if n == 0 then 1 else 2 * Pow2(n - 1)
  }

  /** Exclusive or of the lowest `n` bits. */
  function XorBits(n: nat, a: nat, b: nat): (r: nat)
    ensures r < Pow2(n)
  {
    if n == 0 then 0 else (a + b) % 2 + 2 * XorBits(n - 1, a / 2, b / 2)
  }

  function Xor(a: Byte, b: Byte): Byte {
    assert Pow2(8) == 256;
    XorBits(8, a, b)
  }

  function Unmasked(mask: Option<Mask>, offset: nat, b: Byte): Byte {
    match mask
    case None => b
    case Some(m) => Xor(b, m.At(offset))
  }

  // ── frame headers ─────────────────────────────────────────────────────────

  /** Bytes of extended payload length after the two leading bytes. */
  function LenBytes(second: Byte): nat {
    if second % 128 == 126 then 2 else if second % 128 == 127 then 8 else 0
  }

  function HeaderSize(second: Byte): nat {
    2 + LenBytes(second) + if second >= 128 then 4 else 0
  }

  /** Big-endian value. */
  function Value(bytes: Bytes): nat {
    if bytes == [] then 0 else Value(bytes[..|bytes| - 1]) * 256 + bytes[|bytes| - 1]
  }

  datatype Header = Header(len: nat, mask: Option<Mask>)

  /** Payload length and mask, once `frame` holds a whole header. */
  function ParseHeader(frame: Bytes): (r: Option<Header>)
    ensures r.Some? <==> |frame| >= 2 && |frame| >= HeaderSize(frame[1])
  {
    if |frame| < 2 || |frame| < HeaderSize(frame[1]) then None
    else
      var at := 2 + LenBytes(frame[1]);
      Some(Header(
        if LenBytes(frame[1]) == 0 then frame[1] % 128 else Value(frame[2..at]),
        if frame[1] >= 128 then Some(Mask(frame[at], frame[at + 1], frame[at + 2], frame[at + 3])) else None))
  }

  // ── the tap, one byte at a time ───────────────────────────────────────────

  /** A text or binary message: its opcode, the start of its payload, and its whole length. */
  datatype Message = Message(opcode: nat, prefix: Bytes, len: nat)

  datatype State = State(
    upgraded: bool, headerTail: Bytes, header: Bytes, inFrame: bool, remaining: nat, mask: Option<Mask>,
    control: bool, headerFin: bool, fin: bool, seen: nat, opcode: nat, prefix: Bytes, len: nat, log: seq<Message>)

  const START: State := State(false, [], [], false, 0, None, false, false, false, 0, 0, [], 0, [])

  /** The blank line that ends the HTTP upgrade. */
  predicate BlankLineAt(bytes: Bytes, k: int) {
    0 <= k <= |bytes| - 4 && bytes[k] == 13 && bytes[k + 1] == 10 && bytes[k + 2] == 13 && bytes[k + 3] == 10
  }

  ghost predicate NoBlankLine(bytes: Bytes) {
    forall k :: !BlankLineAt(bytes, k)
  }

  function Capped(bytes: Bytes): (r: Bytes)
    ensures |r| <= PREFIX
  {
    if |bytes| <= PREFIX then bytes else bytes[..PREFIX]
  }

  function EndFrame(s: State): State {
    var t := s.(inFrame := false);
    if !s.control && s.fin && (s.opcode == 1 || s.opcode == 2)
    then t.(log := s.log + [Message(s.opcode, s.prefix, s.len)]) else t
  }

  function ReadHeader(s: State, first: Byte, h: Header): State {
    s.(header := [], headerFin := first >= 128, remaining := h.len, mask := h.mask, seen := 0,
       inFrame := true, control := first % 16 >= 8)
  }

  /** A data frame starts a message or continues the one being assembled. */
  function JoinMessage(s: State, opcode: nat, len: nat): State {
    if opcode != 0 then s.(fin := s.headerFin, opcode := opcode, prefix := [], len := len % U64)
    else s.(fin := s.headerFin, len := (s.len + len) % U64)
  }

  function Opened(s: State, first: Byte, h: Header): State {
    var t := ReadHeader(s, first, h);
    if t.control then t else JoinMessage(t, first % 16, h.len)
  }

  /** A whole header is read: the frame begins, and ends if it is empty. */
  function Begin(s: State, first: Byte, h: Header): State {
    if h.len == 0 then EndFrame(Opened(s, first, h)) else Opened(s, first, h)
  }

  function Step(s: State, b: Byte): State {
    if !s.upgraded then
      var tail := s.headerTail + [b];
      if BlankLineAt(tail, |tail| - 4) then s.(upgraded := true, headerTail := []) else s.(headerTail := tail)
    else if !s.inFrame then
      var header := s.header + [b];
      match ParseHeader(header)
      case None => s.(header := header)
      case Some(h) => Begin(s, header[0], h)
    else Payload(s, [b])
  }

  /** Payload bytes unmasked, from an offset in the frame. */
  function UnmaskAll(mask: Option<Mask>, offset: nat, bytes: Bytes): (r: Bytes)
    ensures |r| == |bytes|
  {
    seq(|bytes|, i requires 0 <= i < |bytes| => Unmasked(mask, offset + i, bytes[i]))
  }

  function Taken(s: State, bytes: Bytes): State {
    s.(prefix := if s.control then s.prefix else Capped(s.prefix + UnmaskAll(s.mask, s.seen, bytes)),
       seen := s.seen + |bytes|,
       remaining := if |bytes| <= s.remaining then s.remaining - |bytes| else 0)
  }

  /** Payload bytes of the frame being read, any number of them at once. */
  function Payload(s: State, bytes: Bytes): State {
    if Taken(s, bytes).remaining == 0 then EndFrame(Taken(s, bytes)) else Taken(s, bytes)
  }

  function Fold(s: State, bytes: Bytes): State
    decreases |bytes|
  {
    if bytes == [] then s else Fold(Step(s, bytes[0]), bytes[1..])
  }

  /** What holds between reads. */
  ghost predicate Valid(s: State) {
    && |s.prefix| <= PREFIX && s.len < U64
    && (s.inFrame ==> s.remaining > 0)
    && ParseHeader(s.header).None?
    && NoBlankLine(s.headerTail)
  }

  lemma {:induction false} FoldConcat(s: State, a: Bytes, b: Bytes)
    ensures Fold(s, a + b) == Fold(Fold(s, a), b)
    decreases |a|
  {
    if a == [] {
      assert a + b == b;
    } else {
      assert (a + b)[1..] == a[1..] + b;
      FoldConcat(Step(s, a[0]), a[1..], b);
    }
  }

  lemma CapTwice(a: Bytes, x: Bytes, y: Bytes)
    requires |a| <= PREFIX
    ensures Capped(Capped(a + x) + y) == Capped(a + (x + y))
  {
  }

  lemma UnmaskConcat(mask: Option<Mask>, offset: nat, a: Bytes, b: Bytes)
    ensures UnmaskAll(mask, offset, a + b) == UnmaskAll(mask, offset, a) + UnmaskAll(mask, offset + |a|, b)
  {
    assert forall i :: 0 <= i < |b| ==> (a + b)[|a| + i] == b[i];
  }

  lemma PrefixTwice(prefix: Bytes, mask: Option<Mask>, seen: nat, a: Bytes, b: Bytes)
    requires |prefix| <= PREFIX
    ensures Capped(Capped(prefix + UnmaskAll(mask, seen, a)) + UnmaskAll(mask, seen + |a|, b)) == Capped(prefix +
      UnmaskAll(mask, seen, a + b))
  {
    UnmaskConcat(mask, seen, a, b);
    CapTwice(prefix, UnmaskAll(mask, seen, a), UnmaskAll(mask, seen + |a|, b));
  }

  lemma TakenTwice(s: State, a: Bytes, b: Bytes)
    requires |s.prefix| <= PREFIX && |a| + |b| <= s.remaining
    ensures Taken(Taken(s, a), b) == Taken(s, a + b)
  {
    assert |a + b| == |a| + |b|;
    if !s.control {
      PrefixTwice(s.prefix, s.mask, s.seen, a, b);
    }
  }

  lemma PayloadTwice(s: State, a: Bytes, b: Bytes)
    requires |s.prefix| <= PREFIX && |a| + |b| <= s.remaining && |b| > 0
    ensures Payload(Payload(s, a), b) == Payload(s, a + b)
  {
    assert Payload(s, a) == Taken(s, a);
    TakenTwice(s, a, b);
  }

  /** Reading payload bytes one at a time is reading them at once. */
  lemma {:induction false} PayloadFold(s: State, bytes: Bytes)
    requires |s.prefix| <= PREFIX && s.upgraded && s.inFrame && 0 < |bytes| <= s.remaining
    ensures Fold(s, bytes) == Payload(s, bytes)
    decreases |bytes|
  {
    var first, rest := bytes[..1], bytes[1..];
    assert bytes == first + rest && first == [bytes[0]];
    assert Step(s, bytes[0]) == Payload(s, first);
    if rest != [] {
      PayloadFold(Payload(s, first), rest);
      PayloadTwice(s, first, rest);
    } else {
      assert bytes == first;
    }
  }

  /** Only as much of the payload as there is room for is kept. */
  lemma KeepRoom(prefix: Bytes, bytes: Bytes)
    requires |prefix| <= PREFIX
    ensures var room := PREFIX - |prefix|;
      Capped(prefix + bytes) == prefix + bytes[..if |bytes| < room then |bytes| else room]
  {
  }

  lemma BlankLineNext(bytes: Bytes, b: Byte)
    requires NoBlankLine(bytes) && !BlankLineAt(bytes + [b], |bytes| - 3)
    ensures NoBlankLine(bytes + [b])
  {
    forall k ensures !BlankLineAt(bytes + [b], k) {
      assert !BlankLineAt(bytes, k);
    }
  }

  lemma BeginValid(s: State, first: Byte, h: Header)
    requires Valid(s)
    ensures Valid(Begin(s, first, h))
  {
  }

  lemma StepValid(s: State, b: Byte)
    requires Valid(s)
    ensures Valid(Step(s, b))
  {
    if !s.upgraded {
      if !BlankLineAt(s.headerTail + [b], |s.headerTail| - 3) {
        BlankLineNext(s.headerTail, b);
      }
    } else if !s.inFrame {
      var header := s.header + [b];
      if ParseHeader(header).Some? {
        BeginValid(s, header[0], ParseHeader(header).value);
      }
    } else {
      PayloadValid(s, [b]);
    }
  }

  lemma PayloadValid(s: State, bytes: Bytes)
    requires Valid(s)
    ensures Valid(Payload(s, bytes))
  {
  }

  lemma NoBlankLinePrefix(a: Bytes, b: Bytes)
    requires NoBlankLine(a + b)
    ensures NoBlankLine(a)
  {
    forall k ensures !BlankLineAt(a, k) {
      assert !BlankLineAt(a + b, k);
    }
  }

  /** No blank line ends among the bytes: they all belong to the upgrade. */
  lemma {:induction false} UpgradeFold(s: State, bytes: Bytes)
    requires Valid(s) && !s.upgraded && NoBlankLine(s.headerTail + bytes)
    ensures Fold(s, bytes) == s.(headerTail := s.headerTail + bytes)
    decreases |bytes|
  {
    if bytes == [] {
      assert s.headerTail + bytes == s.headerTail;
    } else {
      var tail := s.headerTail + [bytes[0]];
      assert tail + bytes[1..] == s.headerTail + bytes;
      NoBlankLinePrefix(tail, bytes[1..]);
      UpgradeFold(s.(headerTail := tail), bytes[1..]);
    }
  }

  lemma NoneBefore(bytes: Bytes, at: nat)
    requires at + 3 <= |bytes| && forall k :: 0 <= k < at ==> !BlankLineAt(bytes, k)
    ensures NoBlankLine(bytes[..at + 3])
  {
    var before := bytes[..at + 3];
    forall k ensures !BlankLineAt(before, k) {
      assert k < at ==> !BlankLineAt(bytes, k);
    }
  }

  lemma BlankLineReached(s: State, b: Byte)
    requires !s.upgraded && BlankLineAt(s.headerTail + [b], |s.headerTail| - 3)
    ensures Step(s, b) == s.(upgraded := true, headerTail := [])
  {
  }

  /** Where the blank line ends among the new bytes. */
  lemma BlankLineSplit(tail: Bytes, bytes: Bytes, at: nat) returns (n: nat)
    requires NoBlankLine(tail) && BlankLineAt(tail + bytes, at)
    ensures |tail| + n == at + 3 && n < |bytes|
    ensures tail + bytes[..n] == (tail + bytes)[..at + 3]
    ensures (tail + bytes[..n]) + [bytes[n]] == (tail + bytes)[..at + 4]
    ensures bytes[n..][1..] == (tail + bytes)[at + 4..]
  {
    assert at + 4 > |tail| by {
      assert !BlankLineAt(tail, at);
    }
    n := at + 3 - |tail|;
  }

  /** The bytes behind the first blank line are frames. */
  lemma UpgradeEnds(s: State, bytes: Bytes, at: nat)
    requires Valid(s) && !s.upgraded && BlankLineAt(s.headerTail + bytes, at)
    requires forall k :: 0 <= k < at ==> !BlankLineAt(s.headerTail + bytes, k)
    ensures Fold(s, bytes) == Fold(s.(upgraded := true, headerTail := []), (s.headerTail + bytes)[at + 4..])
  {
    var n := BlankLineSplit(s.headerTail, bytes, at);
    var before, after := bytes[..n], bytes[n..];
    NoneBefore(s.headerTail + bytes, at);
    assert bytes == before + after;
    FoldConcat(s, before, after);
    UpgradeFold(s, before);
    LastUpgradeByte(s, s.headerTail + before, after, at);
  }

  lemma LastUpgradeByte(s: State, tail: Bytes, after: Bytes, at: nat)
    requires !s.upgraded && after != [] && |tail| == at + 3 && BlankLineAt(tail + [after[0]], at)
    ensures Fold(s.(headerTail := tail), after) == Fold(s.(upgraded := true, headerTail := []), after[1..])
  {
    BlankLineReached(s.(headerTail := tail), after[0]);
  }

  // ── the incremental parser ────────────────────────────────────────────────

  /** First position of a blank line, or -1. */
  method FindBlankLine(bytes: Bytes) returns (at: int)
    ensures -1 <= at
    ensures at < 0 ==> NoBlankLine(bytes)
    ensures at >= 0 ==> BlankLineAt(bytes, at) && forall k :: 0 <= k < at ==> !BlankLineAt(bytes, k)
  {
    at := 0;
    while at + 4 <= |bytes|
      invariant 0 <= at && forall k :: 0 <= k < at ==> !BlankLineAt(bytes, k)
    {
      if BlankLineAt(bytes, at) {
        return;
      }
      at := at + 1;
    }
    at := -1;
  }

  class Tap {
    var upgraded: bool
    var headerTail: Bytes
    var header: Bytes
    var inFrame: bool
    var remaining: nat
    var mask: Option<Mask>
    var control: bool
    var headerFin: bool
    var fin: bool
    var seen: nat
    var messageOpcode: nat
    var messagePrefix: Bytes
    var messageLen: nat
    var log: seq<Message>

    ghost function Now(): State
      reads this
    {
      State(upgraded, headerTail, header, inFrame, remaining, mask, control, headerFin, fin, seen,
        messageOpcode, messagePrefix, messageLen, log)
    }

    constructor ()
      ensures Now() == START && Valid(Now())
    {
      upgraded, headerTail, header, inFrame, remaining, mask := false, [], [], false, 0, None;
      control, headerFin, fin, seen := false, false, false, 0;
      messageOpcode, messagePrefix, messageLen, log := 0, [], 0, [];
    }

    /** Read the next bytes of the connection, however they were cut. */
    method Feed(bytes: Bytes)
      requires Valid(Now())
      modifies this
      ensures Valid(Now()) && Now() == Fold(old(Now()), bytes)
    {
      ghost var was := Now();
      if !upgraded {
        headerTail := headerTail + bytes;
        var end := FindBlankLine(headerTail);
        if end < 0 {
          UpgradeFold(was, bytes);
          return;
        }
        UpgradeEnds(was, bytes, end);
        upgraded := true;
        var rest := headerTail[end + 4..];
        headerTail := [];
        FeedFrames(rest);
        return;
      }
      FeedFrames(bytes);
    }

    method FeedFrames(bytes: Bytes)
      requires Valid(Now()) && upgraded
      modifies this
      ensures Valid(Now()) && Now() == Fold(old(Now()), bytes)
    {
      var left := bytes;
      while left != []
        invariant Valid(Now()) && upgraded
        invariant Fold(Now(), left) == Fold(old(Now()), bytes)
        decreases |left|
      {
        if !inFrame {
          left := ReadHeaderRun(left);
        } else {
          left := ReadPayloadRun(left);
        }
      }
    }

    /** One byte of the frame's header. */
    method ReadHeaderRun(bytes: Bytes) returns (left: Bytes)
      requires Valid(Now()) && upgraded && !inFrame && bytes != []
      modifies this
      ensures Valid(Now()) && upgraded && |left| < |bytes|
      ensures Fold(Now(), left) == Fold(old(Now()), bytes)
    {
      StepValid(Now(), bytes[0]);
      ReadHeaderByte(bytes[0]);
      left := bytes[1..];
    }

    /** As much of the frame's payload as has arrived. */
    method ReadPayloadRun(bytes: Bytes) returns (left: Bytes)
      requires Valid(Now()) && upgraded && inFrame && bytes != []
      modifies this
      ensures Valid(Now()) && upgraded && |left| < |bytes|
      ensures Fold(Now(), left) == Fold(old(Now()), bytes)
    {
      var take := if remaining < |bytes| then remaining else |bytes|;
      PayloadFold(Now(), bytes[..take]);
      PayloadValid(Now(), bytes[..take]);
      assert bytes == bytes[..take] + bytes[take..];
      FoldConcat(Now(), bytes[..take], bytes[take..]);
      ReadPayload(bytes[..take]);
      left := bytes[take..];
    }

    method ReadHeaderByte(b: Byte)
      requires upgraded && !inFrame
      modifies this
      ensures Now() == Step(old(Now()), b)
    {
      header := header + [b];
      var parsed := ParseHeader(header);
      if parsed.Some? {
        BeginFrame(header[0], parsed.value);
      }
    }

    method BeginFrame(first: Byte, parsed: Header)
      modifies this
      ensures Now() == Begin(old(Now()), first, parsed)
    {
      headerFin := first >= 128;
      header := [];
      remaining := parsed.len;
      mask := parsed.mask;
      seen := 0;
      inFrame := true;
      control := first % 16 >= 8;
      assert Now() == ReadHeader(old(Now()), first, parsed);
      if !control {
        BeginData(first % 16, parsed.len);
      }
      if parsed.len == 0 {
        End();
      }
    }

    method BeginData(opcode: nat, payloadLen: nat)
      modifies this
      ensures Now() == JoinMessage(old(Now()), opcode, payloadLen)
    {
      fin := headerFin;
      if opcode != 0 {
        messageOpcode := opcode;
        messagePrefix := [];
        messageLen := 0;
      }
      messageLen := (messageLen + payloadLen) % U64;
    }

    method KeepPayload(bytes: Bytes)
      requires |messagePrefix| <= PREFIX
      modifies `messagePrefix
      ensures messagePrefix == Capped(old(messagePrefix) + UnmaskAll(mask, seen, bytes))
    {
      var room := PREFIX - |messagePrefix|;
      var keep := if |bytes| < room then |bytes| else room;
      KeepRoom(messagePrefix, UnmaskAll(mask, seen, bytes));
      for i := 0 to keep
        invariant messagePrefix == old(messagePrefix) + UnmaskAll(mask, seen, bytes)[..i]
      {
        messagePrefix := messagePrefix + [Unmasked(mask, seen + i, bytes[i])];
      }
    }

    method ReadPayload(bytes: Bytes)
      requires upgraded && |messagePrefix| <= PREFIX && |bytes| <= remaining
      modifies this
      ensures Now() == Payload(old(Now()), bytes)
    {
      if !control {
        KeepPayload(bytes);
      }
      seen := seen + |bytes|;
      remaining := remaining - |bytes|;
      if remaining == 0 {
        End();
      }
    }

    method End()
      modifies this
      ensures Now() == EndFrame(old(Now()))
    {
      inFrame := false;
      if !control && fin && (messageOpcode == 1 || messageOpcode == 2) {
        log := log + [Message(messageOpcode, messagePrefix, messageLen)];
      }
    }
  }
}
