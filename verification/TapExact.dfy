/** What the tap makes of a WebSocket connection: the same messages however
    the bytes were cut, and exactly the ones that were sent. */
module TapExact {
  import opened Options
  import opened Parts
  import opened Tap

  // ── cutting the stream ────────────────────────────────────────────────────

  function Joined(chunks: seq<Bytes>): Bytes {
    if chunks == [] then [] else Joined(chunks[..|chunks| - 1]) + chunks[|chunks| - 1]
  }

  /** The tap after being fed the chunks one by one. */
  function FeedEach(s: State, chunks: seq<Bytes>): State {
    if chunks == [] then s else Fold(FeedEach(s, chunks[..|chunks| - 1]), chunks[|chunks| - 1])
  }

  lemma {:induction false} FeedEachJoined(s: State, chunks: seq<Bytes>)
    ensures FeedEach(s, chunks) == Fold(s, Joined(chunks))
  {
    if chunks == [] {
    } else {
      FeedEachJoined(s, chunks[..|chunks| - 1]);
      FoldConcat(s, Joined(chunks[..|chunks| - 1]), chunks[|chunks| - 1]);
    }
  }

  /** However a stream is cut, the tap ends in the same state. */
  lemma CutsAgree(s: State, a: seq<Bytes>, b: seq<Bytes>)
    requires Joined(a) == Joined(b)
    ensures FeedEach(s, a) == FeedEach(s, b)
  {
    FeedEachJoined(s, a);
    FeedEachJoined(s, b);
  }

  method FeedChunks(tap: Tap, chunks: seq<Bytes>)
    requires Valid(tap.Now())
    modifies tap
    ensures Valid(tap.Now()) && tap.Now() == FeedEach(old(tap.Now()), chunks)
  {
    for i := 0 to |chunks|
      invariant Valid(tap.Now()) && tap.Now() == FeedEach(old(tap.Now()), chunks[..i])
    {
      assert chunks[..i + 1][..i] == chunks[..i];
      tap.Feed(chunks[i]);
    }
    assert chunks[..|chunks|] == chunks;
  }

  lemma StepLog(s: State, b: Byte)
    ensures s.log <= Step(s, b).log
  {
    if s.upgraded && !s.inFrame && ParseHeader(s.header + [b]).Some? {
      BeginLog(s, (s.header + [b])[0], ParseHeader(s.header + [b]).value);
    }
  }

  lemma BeginLog(s: State, first: Byte, h: Header)
    ensures s.log <= Begin(s, first, h).log
  {
  }

  /** A message once logged stays logged. */
  lemma {:induction false} LogGrows(s: State, bytes: Bytes)
    ensures s.log <= Fold(s, bytes).log
    decreases |bytes|
  {
    if bytes == [] {
    } else {
      StepLog(s, bytes[0]);
      LogGrows(Step(s, bytes[0]), bytes[1..]);
    }
  }

  // ── frames on the wire (RFC 6455, section 5.2) ────────────────────────────

  datatype LenForm = Short | Medium | Long

  /** A frame as sent: its payload, and the bytes that stand for it on the wire. */
  datatype WireFrame = WireFrame(fin: bool, rsv: nat, opcode: nat, form: LenForm, mask: Option<Mask>, payload: Bytes,
                                 wire: Bytes)

  /** Bit `j` of a byte. */
  function Bit(x: nat, j: nat): nat {
    (x / Pow2(j)) % 2
  }

  /** The sender's masking: byte `i` on the wire differs from the payload in
      exactly the bits of byte `i % 4` of the mask as it stands in the header. */
  ghost predicate Masks(mask: Option<Mask>, payload: Bytes, wire: Bytes) {
    |wire| == |payload| && forall i :: 0 <= i < |payload| ==> MaskedByte(mask, payload[i], wire[i], i)
  }

  ghost predicate MaskedByte(mask: Option<Mask>, plain: Byte, sent: Byte, i: nat) {
    if mask.None? then sent == plain
    else forall j :: 0 <= j < 8 ==>
      (Bit(sent, j) != Bit(plain, j) <==> Bit(MaskBytes(mask)[i % 4], j) == 1)
  }

  function Bound(k: nat): nat {
    if k == 0 then 1 else 256 * Bound(k - 1)
  }

  /** `n` as `k` big-endian bytes. */
  function BigEndian(n: nat, k: nat): (r: Bytes)
    requires n < Bound(k)
    ensures |r| == k && Value(r) == n
    decreases k
  {
    if k == 0 then [] else
      var front := BigEndian(n / 256, k - 1);
      assert (front + [n % 256])[..k - 1] == front;
      front + [n % 256]
  }

  /** Each length form carries what fits; the shortest need not be chosen. */
  ghost predicate Fits(f: WireFrame) {
    && f.rsv < 8 && f.opcode < 16
    && match f.form
       case Short => |f.payload| < 126
       case Medium => |f.payload| < Bound(2)
       case Long => |f.payload| < Bound(8)
  }

  ghost predicate WellFormed(f: WireFrame) {
    Fits(f) && Masks(f.mask, f.payload, f.wire)
  }

  function LenBits(f: WireFrame): nat {
    match f.form case Short => |f.payload| case Medium => 126 case Long => 127
  }

  function Extended(f: WireFrame): Bytes
    requires Fits(f)
  {
    match f.form case Short => [] case Medium => BigEndian(|f.payload|, 2) case Long => BigEndian(|f.payload|, 8)
  }

  function MaskBytes(mask: Option<Mask>): Bytes {
    if mask.None? then [] else [mask.value.b0, mask.value.b1, mask.value.b2, mask.value.b3]
  }

  function FirstByte(f: WireFrame): Byte
    requires Fits(f)
  {
    (if f.fin then 128 else 0) + f.rsv * 16 + f.opcode
  }

  function EncodeHeader(f: WireFrame): Bytes
    requires Fits(f)
  {
    [FirstByte(f), (if f.mask.Some? then 128 else 0) + LenBits(f)] + Extended(f) + MaskBytes(f.mask)
  }

  function Encode(f: WireFrame): Bytes
    requires WellFormed(f)
  {
    EncodeHeader(f) + f.wire
  }

  // ── masking (RFC 6455, section 5.3) ───────────────────────────────────────

  /** Division by twice `p` is division by 2, then by `p`. */
  lemma HalfOf(x: nat, p: nat)
    requires p > 0
    ensures x / (2 * p) == (x / 2) / p
  {
    var q, r := (x / 2) / p, (x / 2) % p;
    assert x / 2 == q * p + r && x == 2 * (q * p + r) + x % 2;
    assert 2 * (q * p) == q * (2 * p);
    QuotientIs(x, 2 * p, q, 2 * r + x % 2);
  }

  lemma AtLeastOnce(n: int, d: nat)
    requires n >= 1
    ensures n * d >= d
  {
  }

  lemma QuotientIs(x: nat, d: nat, q: nat, r: nat)
    requires d > 0 && r < d && x == q * d + r
    ensures x / d == q
  {
    var q', r' := x / d, x % d;
    assert x == q' * d + r' && 0 <= r' < d;
    assert (q' - q) * d == q' * d - q * d && (q - q') * d == q * d - q' * d;
    if q' > q {
      AtLeastOnce(q' - q, d);
    } else if q' < q {
      AtLeastOnce(q - q', d);
    }
  }

  /** The same bit, found by halving. */
  function LowBitAfter(x: nat, j: nat): nat {
    if j == 0 then x % 2 else LowBitAfter(x / 2, j - 1)
  }

  lemma {:induction false} BitByHalving(x: nat, j: nat)
    ensures Bit(x, j) == LowBitAfter(x, j)
    decreases j
  {
    if j == 0 {
      assert Pow2(0) == 1;
    } else {
      HalfOf(x, Pow2(j - 1));
      BitByHalving(x / 2, j - 1);
    }
  }

  lemma LowBit(a: nat, b: nat, rest: nat)
    ensures var r := (a + b) % 2 + 2 * rest; r / 2 == rest && r % 2 == (a % 2 + b % 2) % 2
  {
  }

  /** Each bit of the exclusive or is the sum of the two bits, without carry. */
  lemma {:induction false} XorBitsAt(n: nat, a: nat, b: nat, j: nat)
    requires j < n
    ensures LowBitAfter(XorBits(n, a, b), j) == (LowBitAfter(a, j) + LowBitAfter(b, j)) % 2
    decreases n
  {
    LowBit(a, b, XorBits(n - 1, a / 2, b / 2));
    if j == 0 {
    } else {
      XorBitsAt(n - 1, a / 2, b / 2, j - 1);
    }
  }

  /** The tap's exclusive or of two bytes, bit by bit. */
  lemma XorIsExclusive(a: Byte, b: Byte, j: nat)
    requires j < 8
    ensures Bit(Xor(a, b), j) == (Bit(a, j) + Bit(b, j)) % 2
  {
    XorBitsAt(8, a, b, j);
    BitByHalving(Xor(a, b), j);
    BitByHalving(a, j);
    BitByHalving(b, j);
  }

  /** Numbers with the same low bits are equal. */
  lemma {:induction false} SameBits(n: nat, a: nat, b: nat)
    requires a < Pow2(n) && b < Pow2(n)
    requires forall j :: 0 <= j < n ==> LowBitAfter(a, j) == LowBitAfter(b, j)
    ensures a == b
    decreases n
  {
    if n == 0 {
    } else {
      assert LowBitAfter(a, 0) == LowBitAfter(b, 0);
      forall j | 0 <= j < n - 1 ensures LowBitAfter(a / 2, j) == LowBitAfter(b / 2, j) {
        assert LowBitAfter(a, j + 1) == LowBitAfter(b, j + 1);
      }
      SameBits(n - 1, a / 2, b / 2);
    }
  }

  lemma SameBytes(a: Byte, b: Byte)
    requires forall j :: 0 <= j < 8 ==> Bit(a, j) == Bit(b, j)
    ensures a == b
  {
    assert Pow2(8) == 256;
    forall j | 0 <= j < 8 ensures LowBitAfter(a, j) == LowBitAfter(b, j) {
      BitByHalving(a, j);
      BitByHalving(b, j);
    }
    SameBits(8, a, b);
  }

  lemma BitSum(s: nat, p: nat, m: nat)
    requires s < 2 && p < 2 && m < 2 && (s != p <==> m == 1)
    ensures (s + m) % 2 == p
  {
  }

  lemma BitUnmasked(plain: Byte, sent: Byte, m: Byte, j: nat)
    requires j < 8 && (Bit(sent, j) != Bit(plain, j) <==> Bit(m, j) == 1)
    ensures Bit(Xor(sent, m), j) == Bit(plain, j)
  {
    XorIsExclusive(sent, m, j);
    BitSum(Bit(sent, j), Bit(plain, j), Bit(m, j));
  }

  /** One byte on the wire is read as the byte sent. */
  lemma ByteUnmasked(mask: Option<Mask>, plain: Byte, sent: Byte, i: nat)
    requires MaskedByte(mask, plain, sent, i)
    ensures Unmasked(mask, i, sent) == plain
  {
    if mask.Some? {
      var m := MaskBytes(mask)[i % 4];
      assert m == mask.value.At(i);
      forall j | 0 <= j < 8 ensures Bit(Xor(sent, m), j) == Bit(plain, j) {
        BitUnmasked(plain, sent, m, j);
      }
      SameBytes(Xor(sent, m), plain);
    }
  }

  /** The tap's exclusive or undoes the sender's masking. */
  lemma WireUnmasked(mask: Option<Mask>, payload: Bytes, wire: Bytes)
    requires Masks(mask, payload, wire)
    ensures UnmaskAll(mask, 0, wire) == payload
  {
    forall i | 0 <= i < |payload| ensures Unmasked(mask, 0 + i, wire[i]) == payload[i] {
      assert MaskedByte(mask, payload[i], wire[i], i);
      ByteUnmasked(mask, payload[i], wire[i], i);
    }
  }

  /** Masking is its own inverse: what the tap makes of a payload is what a
      sender puts on the wire for it, so every payload can be sent. */
  lemma MaskTwice(mask: Option<Mask>, payload: Bytes)
    ensures Masks(mask, payload, UnmaskAll(mask, 0, payload))
    ensures UnmaskAll(mask, 0, UnmaskAll(mask, 0, payload)) == payload
  {
    var wire := UnmaskAll(mask, 0, payload);
    forall i | 0 <= i < |payload| ensures MaskedByte(mask, payload[i], wire[i], i) {
      if mask.Some? {
        assert MaskBytes(mask)[i % 4] == mask.value.At(0 + i);
        forall j | 0 <= j < 8
          ensures Bit(wire[i], j) != Bit(payload[i], j) <==> Bit(MaskBytes(mask)[i % 4], j) == 1
        {
          XorIsExclusive(payload[i], mask.value.At(0 + i), j);
        }
      }
    }
    WireUnmasked(mask, payload, wire);
  }

  lemma ThreeParts(a: Bytes, b: Bytes, c: Bytes)
    ensures var all := a + b + c;
      && |all| == |a| + |b| + |c| && all[..|a|] == a && all[|a|..|a| + |b|] == b && all[|a| + |b|..] == c
      && (forall i :: 0 <= i < |a| ==> all[i] == a[i])
      && (forall i :: 0 <= i < |c| ==> all[|a| + |b| + i] == c[i])
  {
  }

  lemma SecondByte(f: WireFrame)
    requires Fits(f)
    ensures var b := EncodeHeader(f)[1];
      && LenBytes(b) == |Extended(f)| && (b >= 128 <==> f.mask.Some?) && b % 128 == LenBits(f)
      && HeaderSize(b) == 2 + |Extended(f)| + |MaskBytes(f.mask)|
  {
  }

  lemma HeaderParses(f: WireFrame)
    requires Fits(f)
    ensures var h := EncodeHeader(f);
      |h| >= 2 && |h| == HeaderSize(h[1]) && ParseHeader(h) == Some(Header(|f.payload|, f.mask))
  {
    ThreeParts([FirstByte(f), (if f.mask.Some? then 128 else 0) + LenBits(f)], Extended(f), MaskBytes(f.mask));
    SecondByte(f);
  }

  // ── one frame through the tap ─────────────────────────────────────────────

  /** Between frames. */
  ghost predicate Ready(s: State) {
    Valid(s) && s.upgraded && !s.inFrame && s.header == []
  }

  /** A header arrives byte by byte; nothing happens until it is whole. */
  lemma {:induction false} HeaderFold(s: State, done: Bytes, more: Bytes)
    requires s.upgraded && !s.inFrame && s.header == done && more != []
    requires |done + more| >= 2 && |done + more| == HeaderSize((done + more)[1])
    ensures ParseHeader(done + more).Some?
    ensures Fold(s, more) == Begin(s, (done + more)[0], ParseHeader(done + more).value)
    decreases |more|
  {
    var next := done + [more[0]];
    assert next + more[1..] == done + more;
    if |more| == 1 {
      assert next == done + more;
      assert Fold(s, more) == Step(s, more[0]);
    } else {
      assert |next| >= 2 ==> next[1] == (done + more)[1];
      HeaderFold(s.(header := next), next, more[1..]);
    }
  }

  /** The message being assembled, and the messages logged. */
  datatype Assembly = Assembly(opcode: nat, prefix: Bytes, len: nat, log: seq<Message>)

  function View(s: State): Assembly {
    Assembly(s.opcode, s.prefix, s.len, s.log)
  }

  /** What one whole frame does: a control frame nothing, a data frame its
      part of a message, logged when it is the last. */
  function Join(v: Assembly, f: WireFrame): Assembly {
    if f.opcode >= 8 then v
    else
      var m := if f.opcode != 0 then Assembly(f.opcode, Capped(f.payload), |f.payload| % U64, v.log)
               else v.(prefix := Capped(v.prefix + f.payload), len := (v.len + |f.payload|) % U64);
      if f.fin && (m.opcode == 1 || m.opcode == 2) then m.(log := m.log + [Message(m.opcode, m.prefix, m.len)]) else m
  }

  lemma FirstByteBits(f: WireFrame)
    requires Fits(f)
    ensures (FirstByte(f) >= 128 <==> f.fin) && FirstByte(f) % 16 == f.opcode
  {
  }

  lemma CapAppend(a: Bytes, b: Bytes)
    requires |a| <= PREFIX
    ensures Capped([] + b) == Capped(b) && (b == [] ==> Capped(a + b) == a)
  {
    assert [] + b == b;
    assert b == [] ==> a + b == a;
  }

  /** The frame a header opens. */
  function OpenedFrame(s: State, f: WireFrame): State
    requires Fits(f)
  {
    Opened(s, FirstByte(f), Header(|f.payload|, f.mask))
  }

  lemma OpenedFields(s: State, f: WireFrame)
    requires Ready(s) && Fits(f)
    ensures var u := OpenedFrame(s, f);
      && u.upgraded && u.inFrame && u.header == [] && u.headerTail == s.headerTail
      && u.remaining == |f.payload| && u.mask == f.mask && u.seen == 0 && u.log == s.log
      && (u.control <==> f.opcode >= 8) && (!u.control ==> u.fin == f.fin)
  {
    FirstByteBits(f);
  }

  lemma OpenedMessage(s: State, f: WireFrame)
    requires Ready(s) && Fits(f)
    ensures var u := OpenedFrame(s, f);
      && |u.prefix| <= PREFIX && u.len < U64
      && (f.opcode >= 8 ==> View(u) == View(s))
      && (0 < f.opcode < 8 ==> u.opcode == f.opcode && u.prefix == [] && u.len == |f.payload| % U64)
      && (f.opcode == 0 ==> u.opcode == s.opcode && u.prefix == s.prefix && u.len == (s.len + |f.payload|) % U64)
  {
    FirstByteBits(f);
  }

  lemma HeaderRead(s: State, f: WireFrame)
    requires Ready(s) && Fits(f)
    ensures Fold(s, EncodeHeader(f)) == Begin(s, FirstByte(f), Header(|f.payload|, f.mask))
  {
    var h := EncodeHeader(f);
    HeaderParses(f);
    assert [] + h == h;
    HeaderFold(s, [], h);
  }

  /** The state between frames once a frame ends, and what it logged. */
  lemma FrameEnds(t: State)
    requires t.upgraded && t.header == [] && |t.prefix| <= PREFIX && t.len < U64 && NoBlankLine(t.headerTail)
    ensures Ready(EndFrame(t))
    ensures View(EndFrame(t)) == if !t.control && t.fin && (t.opcode == 1 || t.opcode == 2)
      then View(t).(log := t.log + [Message(t.opcode, t.prefix, t.len)]) else View(t)
  {
  }

  lemma EmptyFrame(s: State, f: WireFrame)
    requires Ready(s) && Fits(f) && f.payload == []
    ensures Ready(EndFrame(OpenedFrame(s, f))) && View(EndFrame(OpenedFrame(s, f))) == Join(View(s), f)
  {
    OpenedFields(s, f);
    OpenedMessage(s, f);
    FrameEnds(OpenedFrame(s, f));
    CapAppend(s.prefix, f.payload);
  }

  lemma WholePayload(s: State, f: WireFrame)
    requires Ready(s) && WellFormed(f) && f.payload != []
    ensures var t := Payload(OpenedFrame(s, f), f.wire);
      Ready(t) && View(t) == Join(View(s), f)
  {
    OpenedFields(s, f);
    OpenedMessage(s, f);
    WireUnmasked(f.mask, f.payload, f.wire);
    CapAppend(s.prefix, f.payload);
    PayloadEnds(OpenedFrame(s, f), f.wire);
  }

  /** Reading the whole payload keeps its start and ends the frame. */
  lemma PayloadEnds(u: State, bytes: Bytes)
    requires u.upgraded && u.header == [] && |u.prefix| <= PREFIX && u.len < U64 && NoBlankLine(u.headerTail)
    requires u.remaining == |bytes|
    ensures var t := u.(prefix := if u.control then u.prefix else Capped(u.prefix + UnmaskAll(u.mask, u.seen, bytes)));
      Ready(Payload(u, bytes)) && View(Payload(u, bytes)) == View(EndFrame(t))
  {
  }

  /** The bytes of one frame have the effect of the frame. */
  lemma FrameFold(s: State, f: WireFrame)
    requires Ready(s) && WellFormed(f)
    ensures Ready(Fold(s, Encode(f))) && View(Fold(s, Encode(f))) == Join(View(s), f)
  {
    var h, body := EncodeHeader(f), f.wire;
    FoldConcat(s, h, body);
    HeaderRead(s, f);
    if f.payload == [] {
      EmptyFrame(s, f);
    } else {
      OpenedFields(s, f);
      OpenedMessage(s, f);
      PayloadFold(Fold(s, h), body);
      WholePayload(s, f);
    }
  }

  // ── whole streams (RFC 6455, sections 5.4 and 5.5) ────────────────────────

  function EncodeAll(frames: seq<WireFrame>): Bytes
    requires forall f :: f in frames ==> WellFormed(f)
  {
    if frames == [] then [] else Encode(frames[0]) + EncodeAll(frames[1..])
  }

  function JoinAll(v: Assembly, frames: seq<WireFrame>): Assembly
    decreases |frames|
  {
    if frames == [] then v else JoinAll(Join(v, frames[0]), frames[1..])
  }

  lemma {:induction false} FramesFold(s: State, frames: seq<WireFrame>)
    requires Ready(s) && forall f :: f in frames ==> WellFormed(f)
    ensures Ready(Fold(s, EncodeAll(frames))) && View(Fold(s, EncodeAll(frames))) == JoinAll(View(s), frames)
    decreases |frames|
  {
    if frames == [] {
    } else {
      FrameFold(s, frames[0]);
      FoldConcat(s, Encode(frames[0]), EncodeAll(frames[1..]));
      FramesFold(Fold(s, Encode(frames[0])), frames[1..]);
    }
  }

  /** A message as sent: a data opcode and at least one fragment. */
  datatype Sent = Sent(opcode: nat, fragments: seq<Bytes>)

  function Whole(fragments: seq<Bytes>): Bytes {
    if fragments == [] then [] else Whole(fragments[..|fragments| - 1]) + fragments[|fragments| - 1]
  }

  /** The data frames, control frames left out. */
  function DataFrames(frames: seq<WireFrame>): seq<WireFrame> {
    if frames == [] then []
    else (if frames[0].opcode >= 8 then [] else [frames[0]]) + DataFrames(frames[1..])
  }

  /** Frame `i` of a message: the opcode on the first only, FIN on the last only. */
  ghost predicate IsFragment(f: WireFrame, m: Sent, i: nat)
    requires i < |m.fragments|
  {
    f.payload == m.fragments[i] && (f.fin <==> i == |m.fragments| - 1) && f.opcode == if i == 0 then m.opcode else 0
  }

  /** The data frames carry exactly these messages, one after another. */
  ghost predicate Carries(data: seq<WireFrame>, messages: seq<Sent>)
    decreases |messages|
  {
    if messages == [] then data == []
    else
      var n := |messages[0].fragments|;
      && 0 < messages[0].opcode < 8 && 0 < n <= |data|
      && (forall i :: 0 <= i < n ==> IsFragment(data[i], messages[0], i))
      && Carries(data[n..], messages[1..])
  }

  /** What the tap should log: of each text or binary message, the opcode, the
      start of its payload and its length. */
  function Expected(messages: seq<Sent>): seq<Message> {
    if messages == [] then []
    else
      var m := messages[0];
      (if m.opcode == 1 || m.opcode == 2 then [Message(m.opcode, Capped(Whole(m.fragments)),
        |Whole(m.fragments)| % U64)] else [])
        + Expected(messages[1..])
  }

  /** Control frames between fragments change nothing. */
  lemma {:induction false} ControlIgnored(v: Assembly, frames: seq<WireFrame>)
    ensures JoinAll(v, frames) == JoinAll(v, DataFrames(frames))
    decreases |frames|
  {
    if frames == [] {
    } else {
      ControlIgnored(Join(v, frames[0]), frames[1..]);
      if frames[0].opcode < 8 {
        assert ([frames[0]] + DataFrames(frames[1..]))[1..] == DataFrames(frames[1..]);
      } else {
        assert [] + DataFrames(frames[1..]) == DataFrames(frames[1..]);
      }
    }
  }

  lemma {:induction false} JoinAllConcat(v: Assembly, a: seq<WireFrame>, b: seq<WireFrame>)
    ensures JoinAll(v, a + b) == JoinAll(JoinAll(v, a), b)
    decreases |a|
  {
    if a == [] {
      assert a + b == b;
    } else {
      assert (a + b)[1..] == a[1..] + b;
      JoinAllConcat(Join(v, a[0]), a[1..], b);
    }
  }

  lemma WrapSum(a: nat, b: nat)
    ensures (a % U64 + b) % U64 == (a + b) % U64
  {
  }

  lemma CapConcat(a: Bytes, b: Bytes)
    ensures Capped(Capped(a) + b) == Capped(a + b)
  {
  }

  /** After some but not all of a message's fragments. */
  lemma {:induction false} FragmentsJoin(v: Assembly, data: seq<WireFrame>, m: Sent, k: nat)
    requires 0 < m.opcode < 8 && 0 < k < |m.fragments| <= |data|
    requires forall i :: 0 <= i < |m.fragments| ==> IsFragment(data[i], m, i)
    ensures var body := Whole(m.fragments[..k]);
      JoinAll(v, data[..k]) == Assembly(m.opcode, Capped(body), |body| % U64, v.log)
    decreases k
  {
    assert IsFragment(data[k - 1], m, k - 1);
    assert data[..k] == data[..k - 1] + [data[k - 1]];
    JoinAllConcat(v, data[..k - 1], [data[k - 1]]);
    WholeNext(m.fragments, k - 1);
    if k > 1 {
      FragmentsJoin(v, data, m, k - 1);
      var body := Whole(m.fragments[..k - 1]);
      CapConcat(body, m.fragments[k - 1]);
      WrapSum(|body|, |m.fragments[k - 1]|);
    } else {
      assert data[..0] == [];
      assert Whole(m.fragments[..1]) == m.fragments[0];
    }
  }

  lemma WholeNext(fragments: seq<Bytes>, k: nat)
    requires k < |fragments|
    ensures Whole(fragments[..k + 1]) == Whole(fragments[..k]) + fragments[k]
    ensures k == 0 ==> Whole(fragments[..1]) == fragments[0]
  {
    assert fragments[..k + 1][..k] == fragments[..k];
    assert k == 0 ==> fragments[..0] == [] && Whole(fragments[..0]) == [];
  }

  /** The final fragment logs the message. */
  lemma FinalJoin(v: Assembly, f: WireFrame, m: Sent, body: Bytes)
    requires 0 < m.opcode < 8 && f.fin
    requires f.opcode == 0 ==> v.opcode == m.opcode && v.prefix == Capped(body) && v.len == |body| % U64
    requires f.opcode != 0 ==> f.opcode == m.opcode && body == []
    ensures var whole := body + f.payload;
      Join(v, f).log == v.log + if m.opcode == 1 ||
        m.opcode == 2 then [Message(m.opcode, Capped(whole), |whole| % U64)] else []
  {
    CapConcat(body, f.payload);
    WrapSum(|body|, |f.payload|);
    assert [] + f.payload == f.payload;
  }

  lemma ExpectedOne(m: Sent)
    ensures Expected([m])
         == if m.opcode == 1 || m.opcode == 2 then [Message(m.opcode, Capped(Whole(m.fragments)),
           |Whole(m.fragments)| % U64)] else []
  {
    assert [m][1..] == [];
  }

  /** All of a message's fragments: it is logged once, whole. */
  lemma MessageJoin(v: Assembly, data: seq<WireFrame>, m: Sent)
    requires 0 < m.opcode < 8 && 0 < |m.fragments| <= |data|
    requires forall i :: 0 <= i < |m.fragments| ==> IsFragment(data[i], m, i)
    ensures JoinAll(v, data[..|m.fragments|]).log == v.log + Expected([m])
  {
    var n := |m.fragments|;
    var last, before := data[n - 1], JoinAll(v, data[..n - 1]);
    assert IsFragment(last, m, n - 1);
    assert data[..n] == data[..n - 1] + [last];
    JoinAllConcat(v, data[..n - 1], [last]);
    assert JoinAll(before, [last]) == Join(before, last);
    WholeNext(m.fragments, n - 1);
    assert m.fragments[..n] == m.fragments;
    ExpectedOne(m);
    if n > 1 {
      FragmentsJoin(v, data, m, n - 1);
    } else {
      assert data[..0] == [];
    }
    FinalJoin(before, last, m, Whole(m.fragments[..n - 1]));
  }

  lemma ExpectedCons(messages: seq<Sent>)
    requires messages != []
    ensures Expected(messages) == Expected([messages[0]]) + Expected(messages[1..])
  {
    ExpectedOne(messages[0]);
  }

  lemma {:induction false} MessagesJoin(v: Assembly, data: seq<WireFrame>, messages: seq<Sent>)
    requires Carries(data, messages)
    ensures JoinAll(v, data).log == v.log + Expected(messages)
    decreases |messages|
  {
    if messages != [] {
      var n := |messages[0].fragments|;
      var mid := JoinAll(v, data[..n]);
      assert data == data[..n] + data[n..];
      JoinAllConcat(v, data[..n], data[n..]);
      MessageJoin(v, data, messages[0]);
      MessagesJoin(mid, data[n..], messages[1..]);
      ExpectedCons(messages);
      assert (v.log + Expected([messages[0]])) + Expected(messages[1..]) == v.log +
        (Expected([messages[0]]) + Expected(messages[1..]));
    } else {
      assert v.log + [] == v.log;
    }
  }

  /** An HTTP upgrade: it ends at its first blank line. */
  ghost predicate Upgrade(head: Bytes) {
    |head| >= 4 && BlankLineAt(head, |head| - 4) && forall k :: 0 <= k < |head| - 4 ==> !BlankLineAt(head, k)
  }

  lemma UpgradeRead(head: Bytes, rest: Bytes)
    requires Upgrade(head)
    ensures Fold(START, head + rest) == Fold(START.(upgraded := true), rest)
  {
    var whole, at := head + rest, |head| - 4;
    assert [] + whole == whole;
    assert NoBlankLine([]);
    forall k | 0 <= k < at ensures !BlankLineAt(whole, k) {
      assert !BlankLineAt(head, k);
    }
    UpgradeEnds(START, whole, at);
    assert whole[at + 4..] == rest;
  }

  /** Main result: however a connection's bytes are cut, the tap logs exactly
      the messages its frames carry, for any valid length form, masking,
      fragmentation and control frames between fragments. */
  lemma {:induction false} TapReadsMessages(chunks: seq<Bytes>, head: Bytes, frames: seq<WireFrame>,
                                            messages: seq<Sent>)
    requires Upgrade(head) && (forall f :: f in frames ==> WellFormed(f)) && Carries(DataFrames(frames), messages)
    requires Joined(chunks) == head + EncodeAll(frames)
    ensures FeedEach(START, chunks).log == Expected(messages)
  {
    FeedEachJoined(START, chunks);
    UpgradeRead(head, EncodeAll(frames));
    var s := START.(upgraded := true);
    FramesFold(s, frames);
    ControlIgnored(View(s), frames);
    MessagesJoin(View(s), DataFrames(frames), messages);
  }

  /** At any moment, the log holds the first of the messages. */
  lemma {:induction false} LogIsPrefix(chunks: seq<Bytes>, more: Bytes, head: Bytes, frames: seq<WireFrame>,
                                       messages: seq<Sent>)
    requires Upgrade(head) && (forall f :: f in frames ==> WellFormed(f)) && Carries(DataFrames(frames), messages)
    requires Joined(chunks) + more == head + EncodeAll(frames)
    ensures FeedEach(START, chunks).log <= Expected(messages)
  {
    var all := chunks + [more];
    assert all[..|all| - 1] == chunks;
    TapReadsMessages(all, head, frames, messages);
    LogGrows(FeedEach(START, chunks), more);
  }
}
