/** Splitting an oversized list of message parts into entries under a byte cap. */
module Split {
  import opened Parts
  import opened Utf8
  import Hlc
  import opened Seqs

  /** Most bytes of one message entry. */
  const MSG_INLINE_MAX: nat := 256 * 1024

  /** Byte length of a part; that of a part without text is its serialized size. */
  function ByteLen(size: MessagePart -> nat, part: MessagePart): nat {
    if part.Text? || part.Reasoning? then |part.text| else size(part)
  }

  function Bytes(size: MessagePart -> nat, parts: seq<MessagePart>): nat {
    if parts == [] then 0 else Bytes(size, parts[..|parts| - 1]) + ByteLen(size, parts[|parts| - 1])
  }

  predicate Oversized(part: MessagePart) {
    (part.Text? || part.Reasoning?) && |part.text| > MSG_INLINE_MAX
  }

  // ── pieces of one text ────────────────────────────────────────────────────

  /** The last character boundary at or before `end`. */
  function BackToBoundary(text: Text, end: nat): (r: nat)
    requires end <= |text|
    ensures r <= end
  {
    if end < |text| && end > 0 && Tail(text[end]) then BackToBoundary(text, end - 1) else end
  }

  /** Where the search for a piece's end starts. */
  function Reach(text: Text, start: nat): (r: nat)
    requires start < |text|
    ensures start < r <= |text|
  {
    if start + MSG_INLINE_MAX < |text| then start + MSG_INLINE_MAX else |text|
  }

  /** Where the piece that starts at `start` ends. */
  function PieceEnd(text: Text, start: nat): (end: nat)
    requires start < |text|
    ensures start < end <= |text|
  {
    var end := BackToBoundary(text, Reach(text, start));
    if end <= start then |text| else end
  }

  function Pieces(text: Text, start: nat): seq<Text>
    requires start <= |text|
    decreases |text| - start
  {
    if start == |text| then [] else [text[start..PieceEnd(text, start)]] + Pieces(text, PieceEnd(text, start))
  }

  function PieceId(id: string, n: nat): string {
    if n == 0 then id else id + "~" + Hlc.Digits(n, 1)
  }

  function Piece(part: MessagePart, n: nat, body: Text): MessagePart {
    if part.Reasoning? then Reasoning(PieceId(part.id, n), body) else MessagePart.Text(PieceId(part.id, n), body)
  }

  /** The parts that stand for one part: its pieces when it is oversized. */
  function SubParts(part: MessagePart): seq<MessagePart> {
    if !Oversized(part) then [part]
    else
      var pieces := Pieces(part.text, 0);
      seq(|pieces|, i requires 0 <= i < |pieces| => Piece(part, i, pieces[i]))
  }

  function AllSubParts(parts: seq<MessagePart>): seq<MessagePart> {
    if parts == [] then [] else AllSubParts(parts[..|parts| - 1]) + SubParts(parts[|parts| - 1])
  }

  // ── packing parts into chunks ─────────────────────────────────────────────

  /** The chunks so far, never none, and the bytes of the last one. */
  datatype Packing = Packing(full: seq<seq<MessagePart>>, last: seq<MessagePart>, bytes: nat) {
    function Chunks(): seq<seq<MessagePart>> {
      full + [last]
    }
  }

  function Push(size: MessagePart -> nat, p: Packing, part: MessagePart): Packing {
    var len := ByteLen(size, part);
    if p.bytes > 0 && p.bytes + len > MSG_INLINE_MAX then Packing(p.full + [p.last], [part], len)
    else Packing(p.full, p.last + [part], p.bytes + len)
  }

  function PushAll(size: MessagePart -> nat, p: Packing, parts: seq<MessagePart>): Packing {
    if parts == [] then p else Push(size, PushAll(size, p, parts[..|parts| - 1]), parts[|parts| - 1])
  }

  const EMPTY: Packing := Packing([], [], 0)

  function SplitOf(size: MessagePart -> nat, parts: seq<MessagePart>): seq<seq<MessagePart>> {
    PushAll(size, EMPTY, AllSubParts(parts)).Chunks()
  }

  // ── the splitter ──────────────────────────────────────────────────────────

  lemma {:induction false} PushAllConcat(size: MessagePart -> nat, p: Packing, a: seq<MessagePart>, b: seq<MessagePart>)
    ensures PushAll(size, p, a + b) == PushAll(size, PushAll(size, p, a), b)
    decreases |b|
  {
    if b == [] {
      assert a + b == a;
    } else {
      assert (a + b)[..|a + b| - 1] == a + b[..|b| - 1];
      PushAllConcat(size, p, a, b[..|b| - 1]);
    }
  }

  method FindPieceEnd(text: Text, start: nat) returns (end: nat)
    requires start < |text|
    ensures end == PieceEnd(text, start)
  {
    end := if start + MSG_INLINE_MAX < |text| then start + MSG_INLINE_MAX else |text|;
    while end < |text| && !Boundary(text, end)
      invariant end <= |text| && BackToBoundary(text, end) == BackToBoundary(text, Reach(text, start))
      decreases end
    {
      end := end - 1;
    }
    if end <= start {
      end := |text|;
    }
  }

  /** Piece number `n` starts at `start`. */
  ghost predicate AtPiece(text: Text, start: nat, n: nat) {
    start <= |text| && n <= |Pieces(text, 0)| && Pieces(text, start) == Pieces(text, 0)[n..]
  }

  /** The piece at `start` is number `n`, and the next one starts at its end. */
  lemma {:induction false} NextAt(text: Text, start: nat, n: nat)
    requires start < |text| && AtPiece(text, start, n)
    ensures n < |Pieces(text, 0)| && Pieces(text, 0)[n] == text[start..PieceEnd(text, start)]
    ensures AtPiece(text, PieceEnd(text, start), n + 1)
  {
    var all, rest := Pieces(text, 0), Pieces(text, PieceEnd(text, start));
    assert all[n..] == [text[start..PieceEnd(text, start)]] + rest;
    assert all[n] == all[n..][0] && all[n + 1..] == all[n..][1..] == rest;
  }

  lemma {:induction false} NextPiece(size: MessagePart -> nat, p: Packing, part: MessagePart, start: nat, n: nat)
    requires Oversized(part) && start < |part.text| && AtPiece(part.text, start, n)
    ensures n < |SubParts(part)| && AtPiece(part.text, PieceEnd(part.text, start), n + 1)
    ensures PushAll(size, p, SubParts(part)[..n + 1])
         == Push(size, PushAll(size, p, SubParts(part)[..n]),
           Piece(part, n, part.text[start..PieceEnd(part.text, start)]))
  {
    NextAt(part.text, start, n);
    var subs := SubParts(part);
    assert subs[..n + 1][..n] == subs[..n];
  }

  class Splitter {
    const size: MessagePart -> nat
    var chunks: seq<seq<MessagePart>>
    var currentBytes: nat

    ghost function Now(): (p: Packing)
      requires chunks != []
      reads this
      ensures p.Chunks() == chunks
    {
      Packing(chunks[..|chunks| - 1], chunks[|chunks| - 1], currentBytes)
    }

    constructor (size: MessagePart -> nat)
      ensures this.size == size && chunks != [] && Now() == EMPTY
    {
      this.size := size;
      chunks := [[]];
      currentBytes := 0;
    }

    method PushPart(part: MessagePart)
      requires chunks != []
      modifies this
      ensures chunks != [] && Now() == Push(size, old(Now()), part)
    {
      var len := ByteLen(size, part);
      if currentBytes > 0 && currentBytes + len > MSG_INLINE_MAX {
        chunks := chunks + [[]];
        currentBytes := 0;
      }
      currentBytes := currentBytes + len;
      chunks := chunks[|chunks| - 1 := chunks[|chunks| - 1] + [part]];
    }

    /** Cut an oversized text at character boundaries and push its pieces. */
    method PushPieces(part: MessagePart)
      requires chunks != [] && Oversized(part)
      modifies this
      ensures chunks != [] && Now() == PushAll(size, old(Now()), SubParts(part))
    {
      var text := part.text;
      var start, piece := 0, 0;
      while start < |text|
        invariant chunks != [] && start <= |text| && AtPiece(text, start, piece)
        invariant Now() == PushAll(size, old(Now()), SubParts(part)[..piece])
      {
        NextPiece(size, old(Now()), part, start, piece);
        var end := FindPieceEnd(text, start);
        PushPart(Piece(part, piece, text[start..end]));
        start := end;
        piece := piece + 1;
      }
      assert SubParts(part)[..piece] == SubParts(part);
    }
  }

  lemma NextSubParts(size: MessagePart -> nat, parts: seq<MessagePart>, i: nat)
    requires i < |parts|
    ensures PushAll(size, EMPTY, AllSubParts(parts[..i + 1])) == PushAll(size,
      PushAll(size, EMPTY, AllSubParts(parts[..i])), SubParts(parts[i]))
  {
    assert parts[..i + 1][..i] == parts[..i];
    PushAllConcat(size, EMPTY, AllSubParts(parts[..i]), SubParts(parts[i]));
  }

  lemma PushAllOne(size: MessagePart -> nat, p: Packing, part: MessagePart)
    ensures PushAll(size, p, [part]) == Push(size, p, part)
  {
    assert [part][..0] == [];
  }

  method SplitParts(size: MessagePart -> nat, parts: seq<MessagePart>) returns (chunks: seq<seq<MessagePart>>)
    ensures chunks == SplitOf(size, parts)
  {
    var splitter := new Splitter(size);
    for i := 0 to |parts|
      invariant splitter.size == size && splitter.chunks != []
      invariant splitter.Now() == PushAll(size, EMPTY, AllSubParts(parts[..i]))
    {
      NextSubParts(size, parts, i);
      if Oversized(parts[i]) {
        splitter.PushPieces(parts[i]);
      } else {
        PushAllOne(size, splitter.Now(), parts[i]);
        splitter.PushPart(parts[i]);
      }
    }
    assert parts[..|parts|] == parts;
    chunks := splitter.chunks;
  }

  // ── the pieces of a text ──────────────────────────────────────────────────

  function Concat(pieces: seq<Text>): Text
    decreases |pieces|
  {
    if pieces == [] then [] else pieces[0] + Concat(pieces[1..])
  }

  lemma {:induction false} BackFinds(text: Text, end: nat, at: nat)
    requires at <= end <= |text| && Boundary(text, at)
    ensures at <= BackToBoundary(text, end) && Boundary(text, BackToBoundary(text, end))
    decreases end
  {
    if end < |text| && end > 0 && Tail(text[end]) {
      BackFinds(text, end - 1, at);
    }
  }

  lemma BoundaryBehind(text: Text, start: nat) returns (at: nat)
    requires start < |text| && Valid(text[start..])
    ensures start < at <= Reach(text, start) && Boundary(text, at)
  {
    var rest := text[start..];
    NextBoundary(rest);
    at := start + CharLen(rest);
    assert at < |text| ==> rest[CharLen(rest)] == text[at];
  }

  /** A boundary is always found: the guard against standing still never acts. */
  lemma {:induction false} GuardNeverActs(text: Text, start: nat)
    requires start < |text| && Valid(text[start..])
    ensures BackToBoundary(text, Reach(text, start)) > start
    ensures PieceEnd(text, start) == BackToBoundary(text, Reach(text, start))
    ensures Boundary(text, PieceEnd(text, start)) && PieceEnd(text, start) - start <= MSG_INLINE_MAX
  {
    var at := BoundaryBehind(text, start);
    BackFinds(text, Reach(text, start), at);
  }

  /** Cutting a text at a boundary leaves two valid texts. */
  lemma {:induction false} CutValid(text: Text, start: nat, end: nat)
    requires start < end <= |text| && Valid(text[start..]) && Boundary(text, end)
    ensures Valid(text[start..end]) && Valid(text[end..])
  {
    var rest, k := text[start..], end - start;
    assert end < |text| ==> rest[k] == text[end];
    BoundarySplits(rest, k);
    assert rest[..k] == text[start..end] && rest[k..] == text[end..];
  }

  lemma {:induction false} PieceValid(text: Text, start: nat)
    requires start < |text| && Valid(text[start..])
    ensures Valid(text[start..PieceEnd(text, start)]) && Valid(text[PieceEnd(text, start)..])
  {
    GuardNeverActs(text, start);
    CutValid(text, start, PieceEnd(text, start));
  }

  ghost predicate GoodPiece(piece: Text) {
    0 < |piece| <= MSG_INLINE_MAX && Valid(piece)
  }

  lemma {:induction false} PiecesExact(text: Text, start: nat)
    requires start <= |text| && Valid(text[start..])
    ensures Concat(Pieces(text, start)) == text[start..]
    ensures forall i :: 0 <= i < |Pieces(text, start)| ==> GoodPiece(Pieces(text, start)[i])
    decreases |text| - start
  {
    if start < |text| {
      GuardNeverActs(text, start);
      PieceValid(text, start);
      var end := PieceEnd(text, start);
      PiecesExact(text, end);
      assert text[start..] == text[start..end] + text[end..];
      assert ([text[start..end]] + Pieces(text, end))[1..] == Pieces(text, end);
    }
  }

  /** Each piece is as long as it can be: it reaches the end of the text, or
      no later boundary is within the limit. */
  lemma {:induction false} PieceIsLongest(text: Text, start: nat, k: nat)
    requires start < |text| && Valid(text[start..])
    requires PieceEnd(text, start) < k <= |text| && k <= start + 256 * 1024
    ensures !Boundary(text, k)
  {
    GuardNeverActs(text, start);
    if Boundary(text, k) {
      BackFinds(text, Reach(text, start), k);
    }
  }

  lemma {:induction false} DigitsApart(a: nat, b: nat, w: nat)
    requires Hlc.Digits(a, w) == Hlc.Digits(b, w)
    ensures a == b
    decreases a + b + w
  {
    if (a == 0 && w == 0) || (b == 0 && w == 0) {
    } else {
      var x, y, v := Hlc.Digits(a, w), Hlc.Digits(b, w), if w == 0 then 0 else w - 1;
      assert x[..|x| - 1] == Hlc.Digits(a / 10, v) && y[..|y| - 1] == Hlc.Digits(b / 10, v);
      assert x[|x| - 1] == Hlc.Digit(a % 10) && y[|y| - 1] == Hlc.Digit(b % 10);
      Hlc.DigitOrder(a % 10, b % 10);
      DigitsApart(a / 10, b / 10, v);
    }
  }

  /** The first piece keeps the id, and no two pieces share one. */
  lemma PieceIdsApart(id: string, i: nat, j: nat)
    requires i < j
    ensures PieceId(id, 0) == id && PieceId(id, i) != PieceId(id, j)
  {
    var tail := "~" + Hlc.Digits(j, 1);
    assert PieceId(id, j) == id + tail && (id + tail)[|id|..] == tail;
    if i > 0 && PieceId(id, i) == PieceId(id, j) {
      var other := "~" + Hlc.Digits(i, 1);
      assert (id + other)[|id|..] == other && other[1..] == Hlc.Digits(i, 1) && tail[1..] == Hlc.Digits(j, 1);
      DigitsApart(i, j, 1);
    }
  }

  // ── what splitting keeps ──────────────────────────────────────────────────

  function Texts(parts: seq<MessagePart>): seq<Text>
    requires forall p :: p in parts ==> p.Text? || p.Reasoning?
  {
    seq(|parts|, i requires 0 <= i < |parts| => parts[i].text)
  }

  /** `subs` stand for `part`: itself, or valid pieces of its kind and its
      numbered ids, each within the cap, that concatenate to its text. */
  ghost predicate StandsFor(part: MessagePart, subs: seq<MessagePart>) {
    if !Oversized(part) then subs == [part]
    else
      && (forall i :: 0 <= i < |subs| ==>
        (subs[i].Text? || subs[i].Reasoning?) && subs[i].Reasoning? == part.Reasoning?)
      && (forall i :: 0 <= i < |subs| ==> subs[i].id == PieceId(part.id, i) && GoodPiece(subs[i].text))
      && |subs| >= 2 && Concat(Texts(subs)) == part.text
  }

  lemma ManyPieces(pieces: seq<Text>, cap: nat)
    requires |Concat(pieces)| > cap && forall i :: 0 <= i < |pieces| ==> |pieces[i]| <= cap
    ensures |pieces| >= 2
  {
    if pieces != [] {
      assert |Concat(pieces)| == |pieces[0]| + |Concat(pieces[1..])|;
    }
  }

  lemma {:induction false} PiecesStand(part: MessagePart, pieces: seq<Text>, subs: seq<MessagePart>)
    requires Oversized(part) && |subs| == |pieces| && forall i :: 0 <= i < |subs| ==>
      subs[i] == Piece(part, i, pieces[i])
    requires Concat(pieces) == part.text && forall i :: 0 <= i < |pieces| ==> GoodPiece(pieces[i])
    ensures StandsFor(part, subs)
  {
    ManyPieces(pieces, MSG_INLINE_MAX);
    assert forall i :: 0 <= i < |subs| ==> subs[i].text == pieces[i];
    assert Texts(subs) == pieces;
  }

  lemma {:induction false} SubPartsStand(part: MessagePart)
    requires Oversized(part) ==> Valid(part.text)
    ensures StandsFor(part, SubParts(part))
  {
    if Oversized(part) {
      assert part.text[0..] == part.text;
      PiecesExact(part.text, 0);
      PiecesStand(part, Pieces(part.text, 0), SubParts(part));
    }
  }

  /** Concatenating continuation entries in order. */
  function JoinContinuations(entries: seq<seq<MessagePart>>): seq<MessagePart> {
    if entries == [] then [] else JoinContinuations(entries[..|entries| - 1]) + entries[|entries| - 1]
  }

  lemma JoinSnoc(entries: seq<seq<MessagePart>>, e: seq<MessagePart>)
    ensures JoinContinuations(entries + [e]) == JoinContinuations(entries) + e
  {
    assert (entries + [e])[..|entries|] == entries;
  }

  lemma JoinPush(size: MessagePart -> nat, p: Packing, part: MessagePart)
    ensures JoinContinuations(Push(size, p, part).Chunks()) == JoinContinuations(p.Chunks()) + [part]
  {
    JoinSnoc(p.full, p.last);
    JoinSnoc(p.full, p.last + [part]);
    JoinSnoc(p.full + [p.last], [part]);
    assert JoinContinuations(p.full) + (p.last + [part]) == (JoinContinuations(p.full) + p.last) + [part];
  }

  lemma {:induction false} JoinPacked(size: MessagePart -> nat, parts: seq<MessagePart>)
    ensures JoinContinuations(PushAll(size, EMPTY, parts).Chunks()) == parts
  {
    if parts == [] {
      JoinSnoc([], []);
    } else {
      var front, part := parts[..|parts| - 1], parts[|parts| - 1];
      JoinPacked(size, front);
      JoinPush(size, PushAll(size, EMPTY, front), part);
      assert front + [part] == parts;
    }
  }

  /** Main result: joining the entries gives back, part by part and in order,
      what stands for each part. */
  lemma {:induction false} SplitIsLossless(size: MessagePart -> nat, parts: seq<MessagePart>)
    requires forall p :: p in parts && Oversized(p) ==> Valid(p.text)
    ensures JoinContinuations(SplitOf(size, parts)) == AllSubParts(parts)
    ensures forall i :: 0 <= i < |parts| ==> StandsFor(parts[i], SubParts(parts[i]))
  {
    JoinPacked(size, AllSubParts(parts));
    forall i | 0 <= i < |parts| ensures StandsFor(parts[i], SubParts(parts[i])) {
      SubPartsStand(parts[i]);
    }
  }

  // ── how full the entries are ──────────────────────────────────────────────

  /** Within the cap, or nothing but zero-byte parts before one part that is
      too big by itself and has no text to cut. */
  ghost predicate WithinCap(size: MessagePart -> nat, chunk: seq<MessagePart>) {
    Bytes(size, chunk) <= MSG_INLINE_MAX ||
    (chunk != [] && Bytes(size, chunk[..|chunk| - 1]) == 0
      && !chunk[|chunk| - 1].Text? && !chunk[|chunk| - 1].Reasoning?
      && ByteLen(size, chunk[|chunk| - 1]) > MSG_INLINE_MAX)
  }

  /** A new entry is opened only when the next part does not fit. */
  ghost predicate Greedy(size: MessagePart -> nat, chunk: seq<MessagePart>, next: seq<MessagePart>) {
    next != [] && Bytes(size, chunk) > 0 && Bytes(size, chunk) + ByteLen(size, next[0]) > MSG_INLINE_MAX
  }

  ghost predicate WellPacked(size: MessagePart -> nat, p: Packing) {
    && p.bytes == Bytes(size, p.last)
    && (forall i :: 0 <= i < |p.Chunks()| ==> WithinCap(size, p.Chunks()[i]))
    && (forall i :: 0 <= i < |p.full| ==> Greedy(size, p.Chunks()[i], p.Chunks()[i + 1]))
  }

  lemma BytesSnoc(size: MessagePart -> nat, chunk: seq<MessagePart>, part: MessagePart)
    ensures Bytes(size, chunk + [part]) == Bytes(size, chunk) + ByteLen(size, part)
  {
    assert (chunk + [part])[..|chunk|] == chunk;
  }

  lemma FilledWithinCap(size: MessagePart -> nat, p: Packing, part: MessagePart)
    requires p.bytes == Bytes(size, p.last) && !Oversized(part)
    ensures WithinCap(size, Push(size, p, part).last) &&
      Push(size, p, part).bytes == Bytes(size, Push(size, p, part).last)
  {
    BytesSnoc(size, p.last, part);
    BytesSnoc(size, [], part);
    assert [] + [part] == [part];
    assert (p.last + [part])[..|p.last|] == p.last;
    assert [part][..0] == [];
  }

  /** The entries before the one being filled stay as they are. */
  lemma PushKeepsFull(size: MessagePart -> nat, p: Packing, part: MessagePart, i: nat)
    requires i < |Push(size, p, part).full|
    ensures i < |p.Chunks()| && Push(size, p, part).Chunks()[i] == p.Chunks()[i]
  {
  }

  lemma PushWithinCap(size: MessagePart -> nat, p: Packing, part: MessagePart, i: nat)
    requires WellPacked(size, p) && !Oversized(part) && i < |Push(size, p, part).Chunks()|
    ensures WithinCap(size, Push(size, p, part).Chunks()[i])
  {
    if i < |Push(size, p, part).full| {
      assert WithinCap(size, p.Chunks()[i]);
      PushKeepsFull(size, p, part, i);
    } else {
      FilledWithinCap(size, p, part);
    }
  }

  lemma PushGreedy(size: MessagePart -> nat, p: Packing, part: MessagePart, i: nat)
    requires WellPacked(size, p) && i < |Push(size, p, part).full|
    ensures Greedy(size, Push(size, p, part).Chunks()[i], Push(size, p, part).Chunks()[i + 1])
  {
    var q := Push(size, p, part);
    if i < |p.full| {
      assert Greedy(size, p.Chunks()[i], p.Chunks()[i + 1]);
      assert q.Chunks()[i] == p.Chunks()[i];
      assert q.Chunks()[i + 1][0] == p.Chunks()[i + 1][0];
    } else {
      assert q.Chunks()[i] == p.last && q.Chunks()[i + 1] == [part];
    }
  }

  lemma PushWellPacked(size: MessagePart -> nat, p: Packing, part: MessagePart)
    requires WellPacked(size, p) && !Oversized(part)
    ensures WellPacked(size, Push(size, p, part))
  {
    var q := Push(size, p, part);
    FilledWithinCap(size, p, part);
    forall i | 0 <= i < |q.Chunks()| ensures WithinCap(size, q.Chunks()[i]) {
      PushWithinCap(size, p, part, i);
    }
    forall i | 0 <= i < |q.full| ensures Greedy(size, q.Chunks()[i], q.Chunks()[i + 1]) {
      PushGreedy(size, p, part, i);
    }
  }

  lemma {:induction false} AllWellPacked(size: MessagePart -> nat, parts: seq<MessagePart>)
    requires forall p :: p in parts ==> !Oversized(p)
    ensures WellPacked(size, PushAll(size, EMPTY, parts))
  {
    if parts == [] {
    } else {
      AllWellPacked(size, parts[..|parts| - 1]);
      PushWellPacked(size, PushAll(size, EMPTY, parts[..|parts| - 1]), parts[|parts| - 1]);
    }
  }

  lemma {:induction false} NoneOversized(parts: seq<MessagePart>)
    requires forall p :: p in parts && Oversized(p) ==> Valid(p.text)
    ensures forall p :: p in AllSubParts(parts) ==> !Oversized(p)
  {
    if parts == [] {
    } else {
      var part := parts[|parts| - 1];
      NoneOversized(parts[..|parts| - 1]);
      SubPartsStand(part);
    }
  }

  /** Main result: every entry is within the cap or cannot be made so, and no
      entry is opened early. */
  lemma SplitIsBounded(size: MessagePart -> nat, parts: seq<MessagePart>)
    requires forall p :: p in parts && Oversized(p) ==> Valid(p.text)
    ensures var chunks := SplitOf(size, parts);
      && (forall i :: 0 <= i < |chunks| ==> WithinCap(size, chunks[i]))
      && (forall i :: 0 <= i < |chunks| - 1 ==> Greedy(size, chunks[i], chunks[i + 1]))
  {
    NoneOversized(parts);
    AllWellPacked(size, AllSubParts(parts));
  }

  lemma {:induction false} SubPartsOfWhole(parts: seq<MessagePart>)
    requires forall p :: p in parts ==> !Oversized(p)
    ensures AllSubParts(parts) == parts
  {
    if parts == [] {
    } else {
      SubPartsOfWhole(parts[..|parts| - 1]);
      assert AllSubParts(parts) == parts[..|parts| - 1] + [parts[|parts| - 1]];
    }
  }

  /** Splitting what a split joined to gives the same entries again. */
  lemma SplitAgain(size: MessagePart -> nat, parts: seq<MessagePart>)
    requires forall p :: p in parts && Oversized(p) ==> Valid(p.text)
    ensures SplitOf(size, JoinContinuations(SplitOf(size, parts))) == SplitOf(size, parts)
  {
    SplitIsLossless(size, parts);
    NoneOversized(parts);
    SubPartsOfWhole(AllSubParts(parts));
  }
}
